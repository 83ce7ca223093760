/**
  SyncRun returns under every fair scheduler: time is cut into rounds in each of which the
  dispatcher and every worker get at least one turn, in any order and as often as they like.
  A turn of a sleeping worker is lost, so nobody wakes without being notified.
  */
module ThreadPoolProgress {
  import opened Options
  import opened ThreadPool

  function FairStep<T>(s: State<T>, jobs: seq<Job<T>>, used: nat, turn: Turn): (r: State<T>)
    requires used <= |s.slots|
    ensures |r.slots| == |s.slots|
  {
    if turn.Worker? && turn.i < |s.slots| && s.slots[turn.i].worker.Asleep? then s else Step(s, jobs, used, turn)
  }

  function FairSteps<T>(s: State<T>, jobs: seq<Job<T>>, used: nat, turns: seq<Turn>): (r: State<T>)
    requires used <= |s.slots|
    ensures |r.slots| == |s.slots|
    decreases |turns|
  {
    if turns == [] then s else FairSteps(FairStep(s, jobs, used, turns[0]), jobs, used, turns[1..])
  }

  function FairRun<T>(s: State<T>, jobs: seq<Job<T>>, used: nat, rounds: seq<seq<Turn>>): (r: State<T>)
    requires used <= |s.slots|
    ensures |r.slots| == |s.slots|
    decreases |rounds|
  {
    if rounds == [] then s else FairRun(FairSteps(s, jobs, used, rounds[0]), jobs, used, rounds[1..])
  }

  /** Everybody gets a turn. */
  predicate IsRound(turns: seq<Turn>, workers: nat) {
    Dispatcher in turns && forall i :: 0 <= i < workers ==> Worker(i) in turns
  }

  ghost predicate Good<T>(s: State<T>, jobs: seq<Job<T>>, used: nat) {
    Inv(s, jobs, used) && JobsFit(jobs, |s.buf|)
  }

  lemma StepKeepsGood<T>(s: State<T>, jobs: seq<Job<T>>, used: nat, turn: Turn)
    requires Good(s, jobs, used)
    ensures Good(FairStep(s, jobs, used, turn), jobs, used)
  {
    assert Steps(s, jobs, used, []) == s;
    assert [turn][..0] == [];
    StepsKeepInv(s, jobs, used, [turn]);
  }

  // ------------------------------------------------------------ work still to do

  /** At most how many turns a worker has until its slot is empty and it sleeps. */
  function Rank<T>(slot: Slot, jobs: seq<Job<T>>): nat {
    if slot.task.None? then
      match slot.worker
      case Looking(tries) => if tries <= YIELD_THRESHOLD then YIELD_THRESHOLD - tries + 3 else 3
      case Locking => 2
      case Woken => 2
      case Deciding => 1
      case _ => 0
    else
      var n := if slot.task.value < |jobs| then |jobs[slot.task.value].values| else 0;
      match slot.worker
      case Ran => YIELD_THRESHOLD + 4
      case Running(done) => YIELD_THRESHOLD + 5 + if done <= n then n - done else 0
      case Starting => YIELD_THRESHOLD + 6 + n
      case Deciding => YIELD_THRESHOLD + 7 + n
      case Asleep => YIELD_THRESHOLD + 9 + n
      case _ => YIELD_THRESHOLD + 8 + n
  }

  function Ranks<T>(slots: seq<Slot>, jobs: seq<Job<T>>): nat {
    if slots == [] then 0 else Rank(slots[0], jobs) + Ranks(slots[1..], jobs)
  }

  /** What the tasks from k on cost. */
  function Waiting<T>(jobs: seq<Job<T>>, k: nat): nat
    decreases |jobs| - k
  {
    if k >= |jobs| then 0 else YIELD_THRESHOLD + 16 + |jobs[k].values| + Waiting(jobs, k + 1)
  }

  function PlaceRank(place: Place): nat {
    match place
    case Setting(_) => 0
    case Wanting(_) => 1
    case Releasing(_) => 3
    case Notifying(_) => 6
    case _ => 2
  }

  function Work<T>(s: State<T>, jobs: seq<Job<T>>): nat {
    Ranks(s.slots, jobs) + Waiting(jobs, Issued(s)) + PlaceRank(s.place)
  }

  lemma {:induction false} OneSlot<T>(slots: seq<Slot>, jobs: seq<Job<T>>, i: nat, slot: Slot)
    requires i < |slots|
    ensures Ranks(slots[i := slot], jobs) == Ranks(slots, jobs) - Rank(slots[i], jobs) + Rank(slot, jobs)
  {
    if i > 0 {
      assert slots[i := slot][1..] == slots[1..][i - 1 := slot];
      OneSlot(slots[1..], jobs, i - 1, slot);
    } else {
      assert slots[i := slot][1..] == slots[1..];
    }
  }

  /** The dispatcher looks at a slot, or waits for a mutex, or has returned. */
  ghost predicate OnlyLooked<T>(s: State<T>, r: State<T>) {
    && r.slots == s.slots && r.index == s.index
    && (r == s || s.place.Reading?)
  }

  /** Every turn lowers the work, but for turns that cannot go on and looks of the dispatcher. */
  ghost predicate Lowers<T>(s: State<T>, r: State<T>, jobs: seq<Job<T>>) {
    Work(r, jobs) < Work(s, jobs) || (Work(r, jobs) == Work(s, jobs) && OnlyLooked(s, r))
  }

  /** A worker that can do something. */
  predicate CanGo(slot: Slot) {
    !slot.worker.Asleep? && (slot.worker.Locking? || slot.worker.Woken? ==> slot.owner == Nobody)
  }

  lemma RankFalls<T>(s: State<T>, jobs: seq<Job<T>>, used: nat, i: nat)
    requires Good(s, jobs, used) && i < |s.slots| && CanGo(s.slots[i])
    ensures Rank(WorkerStep(s, jobs, i).slots[i], jobs) < Rank(s.slots[i], jobs)
  {
    assert SlotOk(s.slots[i], i, s.place, Issued(s), jobs, s.runs, s.buf);
  }

  lemma WorkerLowers<T>(s: State<T>, jobs: seq<Job<T>>, used: nat, i: nat)
    requires Good(s, jobs, used) && i < |s.slots| && CanGo(s.slots[i])
    ensures Work(WorkerStep(s, jobs, i), jobs) < Work(s, jobs)
  {
    var r := WorkerStep(s, jobs, i);
    RankFalls(s, jobs, used, i);
    OneSlot(s.slots, jobs, i, r.slots[i]);
    assert r.slots == s.slots[i := r.slots[i]] && Issued(r) == Issued(s);
  }

  /** The dispatcher has something to do with a slot. */
  predicate DispatcherCanGo<T>(s: State<T>, jobs: seq<Job<T>>, used: nat)
    requires used <= |s.slots|
  {
    match s.place
    case Reading(i) => i < used && s.slots[i].task.None? && s.index < |jobs|
    case Wanting(i) => i < used && s.slots[i].owner == Nobody
    case Returned => false
    case _ => true
  }

  /** A new task raises the rank of its slot by less than it cost before. */
  lemma SettingLowers<T>(s: State<T>, jobs: seq<Job<T>>, used: nat)
    requires Good(s, jobs, used) && s.place.Setting?
    ensures Work(DispatcherStep(s, jobs, used), jobs) < Work(s, jobs)
  {
    var i, k, r := s.place.i, s.index, DispatcherStep(s, jobs, used);
    assert SlotOk(s.slots[i], i, s.place, Issued(s), jobs, s.runs, s.buf);
    OneSlot(s.slots, jobs, i, s.slots[i].(task := Some(k)));
    assert Rank(s.slots[i].(task := Some(k)), jobs) <= YIELD_THRESHOLD + 9 + |jobs[k].values|;
    assert r == PutSlot(s, i, s.slots[i].(task := Some(k))).(place := Notifying(i));
  }

  lemma RankHardlyRises<T>(was: Slot, slot: Slot, jobs: seq<Job<T>>)
    requires slot.task == was.task && (slot.worker == was.worker || (was.worker.Asleep? && slot.worker.Woken?))
    ensures Rank(slot, jobs) <= Rank(was, jobs) + if slot.worker == was.worker then 0 else 2
  {
  }

  /** Taking the mutex, waking the worker and giving the mutex back. */
  lemma MutexStepLowers<T>(s: State<T>, jobs: seq<Job<T>>, used: nat)
    requires Good(s, jobs, used) && (s.place.Wanting? || s.place.Notifying? || s.place.Releasing?) && DispatcherCanGo(s, jobs, used)
    ensures Work(DispatcherStep(s, jobs, used), jobs) < Work(s, jobs)
  {
    var i, r := s.place.i, DispatcherStep(s, jobs, used);
    assert SlotOk(s.slots[i], i, s.place, Issued(s), jobs, s.runs, s.buf);
    OneSlot(s.slots, jobs, i, r.slots[i]);
    RankHardlyRises(s.slots[i], r.slots[i], jobs);
    assert r.slots == s.slots[i := r.slots[i]] && Issued(r) == Issued(s);
  }

  lemma DispatcherLowers<T>(s: State<T>, jobs: seq<Job<T>>, used: nat)
    requires Good(s, jobs, used)
    ensures var r := DispatcherStep(s, jobs, used);
      if DispatcherCanGo(s, jobs, used) then Work(r, jobs) < Work(s, jobs) else Work(r, jobs) == Work(s, jobs) && OnlyLooked(s, r)
  {
    if s.place.Setting? {
      SettingLowers(s, jobs, used);
    } else if DispatcherCanGo(s, jobs, used) && !s.place.Reading? {
      MutexStepLowers(s, jobs, used);
    }
  }

  lemma StepLowers<T>(s: State<T>, jobs: seq<Job<T>>, used: nat, turn: Turn)
    requires Good(s, jobs, used)
    ensures Lowers(s, FairStep(s, jobs, used, turn), jobs)
  {
    match turn
    case Dispatcher => DispatcherLowers(s, jobs, used);
    case Worker(i) => if i < |s.slots| && CanGo(s.slots[i]) { WorkerLowers(s, jobs, used, i); }
  }

  lemma {:induction false} StepsLower<T>(s: State<T>, jobs: seq<Job<T>>, used: nat, turns: seq<Turn>)
    requires Good(s, jobs, used)
    ensures Good(FairSteps(s, jobs, used, turns), jobs, used)
    ensures Work(FairSteps(s, jobs, used, turns), jobs) <= Work(s, jobs)
    decreases |turns|
  {
    if turns != [] {
      StepKeepsGood(s, jobs, used, turns[0]);
      StepLowers(s, jobs, used, turns[0]);
      StepsLower(FairStep(s, jobs, used, turns[0]), jobs, used, turns[1..]);
    }
  }

  // ------------------------------------------------- rounds that do no work

  /** If all turns together do no work, neither the first nor the others do. */
  lemma {:induction false} FirstTurn<T>(s: State<T>, jobs: seq<Job<T>>, used: nat, turns: seq<Turn>)
    requires Good(s, jobs, used) && turns != [] && Work(FairSteps(s, jobs, used, turns), jobs) == Work(s, jobs)
    ensures var t := FairStep(s, jobs, used, turns[0]);
      && Good(t, jobs, used) && Work(t, jobs) == Work(s, jobs) && OnlyLooked(s, t)
      && FairSteps(s, jobs, used, turns) == FairSteps(t, jobs, used, turns[1..])
  {
    StepKeepsGood(s, jobs, used, turns[0]);
    StepLowers(s, jobs, used, turns[0]);
    StepsLower(FairStep(s, jobs, used, turns[0]), jobs, used, turns[1..]);
  }

  /** If the turns do no work, the slots stay as they are and nobody who had a turn could go. */
  lemma {:induction false} NobodyCouldGo<T>(s: State<T>, jobs: seq<Job<T>>, used: nat, turns: seq<Turn>)
    requires Good(s, jobs, used) && Work(FairSteps(s, jobs, used, turns), jobs) == Work(s, jobs)
    ensures FairSteps(s, jobs, used, turns).slots == s.slots && FairSteps(s, jobs, used, turns).index == s.index
    ensures forall i :: 0 <= i < |s.slots| && Worker(i) in turns ==> !CanGo(s.slots[i])
    decreases |turns|
  {
    if turns != [] {
      var t := FairStep(s, jobs, used, turns[0]);
      FirstTurn(s, jobs, used, turns);
      NobodyCouldGo(t, jobs, used, turns[1..]);
      if turns[0].Worker? && turns[0].i < |s.slots| && CanGo(s.slots[turns[0].i]) { WorkerLowers(s, jobs, used, turns[0].i); }
      forall i | 0 <= i < |s.slots| && Worker(i) in turns ensures !CanGo(s.slots[i]) {
        assert turns == [turns[0]] + turns[1..];
      }
    }
  }

  ghost predicate AllAsleep(slots: seq<Slot>) {
    forall i :: 0 <= i < |slots| ==> slots[i].task.None? && slots[i].worker.Asleep?
  }

  /** The dispatcher cannot be inside a slot's mutex when no turn of it does work. */
  lemma {:induction false} DispatcherIsOutside<T>(s: State<T>, jobs: seq<Job<T>>, used: nat, turns: seq<Turn>)
    requires Good(s, jobs, used) && Work(FairSteps(s, jobs, used, turns), jobs) == Work(s, jobs) && Dispatcher in turns
    ensures forall i :: 0 <= i < |s.slots| ==> s.slots[i].owner != TheDispatcher
    decreases |turns|
  {
    var t := FairStep(s, jobs, used, turns[0]);
    FirstTurn(s, jobs, used, turns);
    if turns[0] == Dispatcher {
      DispatcherLowers(s, jobs, used);
      forall i | 0 <= i < |s.slots| ensures s.slots[i].owner != TheDispatcher {
        assert SlotOk(s.slots[i], i, s.place, Issued(s), jobs, s.runs, s.buf);
      }
    } else {
      assert turns == [turns[0]] + turns[1..];
      DispatcherIsOutside(t, jobs, used, turns[1..]);
    }
  }

  /** A whole round without work: no task is left and all workers sleep. */
  lemma {:induction false} NoWorkMeansAsleep<T>(s: State<T>, jobs: seq<Job<T>>, used: nat, turns: seq<Turn>)
    requires Good(s, jobs, used) && IsRound(turns, |s.slots|) && Work(FairSteps(s, jobs, used, turns), jobs) == Work(s, jobs)
    ensures AllAsleep(s.slots)
  {
    NobodyCouldGo(s, jobs, used, turns);
    DispatcherIsOutside(s, jobs, used, turns);
    forall i | 0 <= i < |s.slots| ensures s.slots[i].task.None? && s.slots[i].worker.Asleep? {
      assert Worker(i) in turns;
      assert SlotOk(s.slots[i], i, s.place, Issued(s), jobs, s.runs, s.buf);
    }
  }

  /** At most how many looks the dispatcher takes until it returns, once all workers sleep. */
  function Looks<T>(s: State<T>, used: nat): (n: nat)
    ensures n <= 2 * used + 3
  {
    match s.place
    case Reading(i) => (if i <= used then used - i else 0) + (if s.running then used + 3 else 1)
    case _ => 0
  }

  /** With all workers asleep the dispatcher's turn does work or is one of the last looks. */
  lemma AsleepStep<T>(s: State<T>, jobs: seq<Job<T>>, used: nat, turn: Turn)
    requires Good(s, jobs, used) && AllAsleep(s.slots)
    ensures var r := FairStep(s, jobs, used, turn);
      Work(r, jobs) < Work(s, jobs) || r == s || (turn == Dispatcher && r.slots == s.slots && Looks(r, used) < Looks(s, used))
    ensures var r := FairStep(s, jobs, used, turn);
      turn == Dispatcher && r == s ==> s.place.Returned?
  {
    if turn == Dispatcher {
      DispatcherLowers(s, jobs, used);
      if s.place.Wanting? { assert SlotOk(s.slots[s.place.i], s.place.i, s.place, Issued(s), jobs, s.runs, s.buf); }
    }
  }

  lemma {:induction false} AsleepSteps<T>(s: State<T>, jobs: seq<Job<T>>, used: nat, turns: seq<Turn>)
    requires Good(s, jobs, used) && AllAsleep(s.slots) && Work(FairSteps(s, jobs, used, turns), jobs) == Work(s, jobs)
    ensures var r := FairSteps(s, jobs, used, turns);
      Looks(r, used) <= Looks(s, used) && (Dispatcher in turns ==> r.place.Returned? || Looks(r, used) < Looks(s, used))
    decreases |turns|
  {
    if turns != [] {
      var t := FairStep(s, jobs, used, turns[0]);
      FirstTurn(s, jobs, used, turns);
      AsleepStep(s, jobs, used, turns[0]);
      AsleepSteps(t, jobs, used, turns[1..]);
      assert turns == [turns[0]] + turns[1..];
      if s.place.Returned? { ReturnedStays(s, jobs, used, turns); }
    }
  }

  lemma {:induction false} ReturnedStays<T>(s: State<T>, jobs: seq<Job<T>>, used: nat, turns: seq<Turn>)
    requires used <= |s.slots| && s.place.Returned?
    ensures FairSteps(s, jobs, used, turns).place.Returned?
    decreases |turns|
  {
    if turns != [] { ReturnedStays(FairStep(s, jobs, used, turns[0]), jobs, used, turns[1..]); }
  }

  lemma {:induction false} ReturnedForGood<T>(s: State<T>, jobs: seq<Job<T>>, used: nat, rounds: seq<seq<Turn>>)
    requires used <= |s.slots| && s.place.Returned?
    ensures FairRun(s, jobs, used, rounds).place.Returned?
    decreases |rounds|
  {
    if rounds != [] {
      ReturnedStays(s, jobs, used, rounds[0]);
      ReturnedForGood(FairSteps(s, jobs, used, rounds[0]), jobs, used, rounds[1..]);
    }
  }

  // ------------------------------------------------------- before a worker sleeps

  /** Without a task a worker looks a thousand and one times before it wants the mutex to wait. */
  lemma {:induction false} LooksBeforeItWaits<T>(s: State<T>, jobs: seq<Job<T>>, used: nat, i: nat, n: nat)
    requires used <= |s.slots| && i < |s.slots| && s.slots[i].worker == Looking(0) && s.slots[i].task.None? && n <= 1001
    ensures Steps(s, jobs, used, seq(n, _ => Worker(i))) ==
            PutSlot(s, i, s.slots[i].(worker := if n <= 1000 then Looking(n) else Locking))
  {
    var turns := seq(n, _ => Worker(i));
    if n > 0 {
      assert turns[..n - 1] == seq(n - 1, _ => Worker(i));
      LooksBeforeItWaits(s, jobs, used, i, n - 1);
      LooksOnce(PutSlot(s, i, s.slots[i].(worker := Looking(n - 1))), jobs, i, n - 1);
    } else {
      assert turns == [];
    }
  }

  lemma LooksOnce<T>(s: State<T>, jobs: seq<Job<T>>, i: nat, tries: nat)
    requires i < |s.slots| && s.slots[i].worker == Looking(tries) && s.slots[i].task.None?
    ensures WorkerStep(s, jobs, i) == PutSlot(s, i, s.slots[i].(worker := if tries < 1000 then Looking(tries + 1) else Locking))
  {
  }

  // ------------------------------------------------------------------- theorem

  /** A number of rounds after which SyncRun has returned. */
  function Enough<T>(s: State<T>, jobs: seq<Job<T>>, used: nat): nat {
    Work(s, jobs) * (2 * used + 4) + Looks(s, used)
  }

  lemma LessWork(a: nat, b: nat, n: nat, x: nat, y: nat)
    requires a < b && x < n
    ensures a * n + x < b * n + y
  {
    TimesMore(a, b, n);
  }

  lemma {:induction false} RoundLowers<T>(s: State<T>, jobs: seq<Job<T>>, used: nat, turns: seq<Turn>)
    requires Good(s, jobs, used) && IsRound(turns, |s.slots|)
    ensures var r := FairSteps(s, jobs, used, turns);
      Good(r, jobs, used) && (r.place.Returned? || Enough(r, jobs, used) < Enough(s, jobs, used))
  {
    var r := FairSteps(s, jobs, used, turns);
    StepsLower(s, jobs, used, turns);
    if Work(r, jobs) == Work(s, jobs) {
      NoWorkMeansAsleep(s, jobs, used, turns);
      AsleepSteps(s, jobs, used, turns);
    } else {
      LessWork(Work(r, jobs), Work(s, jobs), 2 * used + 4, Looks(r, used), Looks(s, used));
    }
  }

  lemma {:induction false} TimesMore(a: nat, b: nat, n: nat)
    requires a < b
    ensures a * n + n <= b * n
  {
    assert b * n == (b - 1) * n + n;
    if a < b - 1 { TimesMore(a, b - 1, n); }
  }

  /**
    From every state that a run can reach, whoever has slept or waited before: after enough
    rounds of any fair scheduler SyncRun has returned and each task has run once.
    */
  lemma {:induction false} FairRunReturns<T>(s: State<T>, jobs: seq<Job<T>>, used: nat, rounds: seq<seq<Turn>>)
    requires Inv(s, jobs, used) && JobsFit(jobs, |s.buf|)
    requires forall k :: 0 <= k < |rounds| ==> IsRound(rounds[k], |s.slots|)
    requires |rounds| > Enough(s, jobs, used)
    ensures var r := FairRun(s, jobs, used, rounds);
      && r.place.Returned? && |r.runs| == |jobs|
      && forall t :: 0 <= t < |jobs| ==> r.runs[t] == 1 && Wrote(r.buf, jobs[t], |jobs[t].values|)
    decreases |rounds|
  {
    var t := FairSteps(s, jobs, used, rounds[0]);
    RoundLowers(s, jobs, used, rounds[0]);
    if t.place.Returned? {
      ReturnedForGood(t, jobs, used, rounds[1..]);
      RunIsGood(t, jobs, used, rounds[1..]);
      AllRan(FairRun(s, jobs, used, rounds), jobs, used);
    } else {
      FairRunReturns(t, jobs, used, rounds[1..]);
    }
  }

  lemma {:induction false} RunIsGood<T>(s: State<T>, jobs: seq<Job<T>>, used: nat, rounds: seq<seq<Turn>>)
    requires Good(s, jobs, used)
    ensures Good(FairRun(s, jobs, used, rounds), jobs, used)
    decreases |rounds|
  {
    if rounds != [] {
      StepsLower(s, jobs, used, rounds[0]);
      RunIsGood(FairSteps(s, jobs, used, rounds[0]), jobs, used, rounds[1..]);
    }
  }

  lemma AllRan<T>(s: State<T>, jobs: seq<Job<T>>, used: nat)
    requires Inv(s, jobs, used) && s.place.Returned?
    ensures forall t :: 0 <= t < |jobs| ==> s.runs[t] == 1 && Wrote(s.buf, jobs[t], |jobs[t].values|)
  {
    forall t | 0 <= t < |jobs| ensures s.runs[t] == 1 {
      assert TaskOk(s.slots, Issued(s), s.runs, t);
    }
  }
}
