// Stopping every thread of a process that keeps creating threads: the attach loop of the core dumper
// (CoreDumper::try_dump in src/core_dumper.rs).
module AttachProtocol {
  import opened Options

  // ---- The target process ----------------------------------------------------------------------

  datatype Status = Running | Stopped | Dead

  datatype WaitEvent = EventStop | SignalStop(signal: nat) | Exited

  // A thread, whether it is traced, and its event not yet returned by waitpid.
  datatype Thread = Thread(status: Status, attached: bool, pending: Option<WaitEvent>)

  // Thread ids are not reused: dead threads stay in the map.
  type Threads = map<nat, Thread>

  predicate ValidThread(t: Thread) {
    match t.pending
    case None => true
    case Some(Exited) => t.attached && t.status == Dead
    case Some(_) => t.attached && t.status == Stopped
  }

  predicate ValidThreads(threads: Threads) {
    forall tid :: tid in threads ==> ValidThread(threads[tid])
  }

  // What may happen to one thread without the tracer: a running thread may stop or exit; a stopped one
  // that is traced can only be killed, otherwise it may also be continued by a signal.
  predicate ThreadMay(t: Thread, t': Thread) {
    && t'.attached == t.attached && ValidThread(t')
    && (match t.status
        case Running => true
        case Stopped => t' == t || t'.status == Dead || !t.attached
        case Dead => t' == t)
  }

  predicate MayRun(t: Thread) {
    t.status == Running || (t.status == Stopped && !t.attached)
  }

  predicate SomeMayRun(threads: Threads) {
    exists tid :: tid in threads && MayRun(threads[tid])
  }

  // Any number of steps of the process: only a thread that may run can create threads.
  predicate Evolves(a: Threads, b: Threads) {
    && (forall tid :: tid in a ==> tid in b && ThreadMay(a[tid], b[tid]))
    && (forall tid :: tid in b && tid !in a ==> !b[tid].attached && b[tid].pending == None)
    && (SomeMayRun(a) || forall tid :: tid in b ==> tid in a)
  }

  datatype WaitResult = Reaped(tid: nat, event: WaitEvent) | Interrupted | WaitFailed

  // The process and the tracing calls. A call may fail at any time.
  class Target {
    var threads: Threads
    // Bounds how often waitpid is interrupted or reports a thread that is not waited for.
    var patience: nat
    // Some call has failed.
    ghost var failed: bool
    // How often a thread was seen to stop for a signal.
    ghost var signalStops: nat

    ghost predicate Valid()
      reads this
    {
      ValidThreads(threads)
    }

    constructor (patience: nat)
      ensures Valid() && !failed && forall tid :: tid in threads ==> !threads[tid].attached
    {
      var start: Threads := *;
      threads := if (forall tid :: tid in start ==> ValidThread(start[tid]) && !start[tid].attached) then start
          else map[];
      this.patience := patience;
      failed := false;
      signalStops := 0;
    }

    // The process runs for a while.
    method Run()
      requires Valid()
      modifies this`threads
      ensures Valid() && Evolves(old(threads), threads)
    {
      var next: Threads := *;
      if ValidThreads(next) && Evolves(threads, next) {
        threads := next;
      } else {
        Stutters(threads);
      }
    }

    // An atomic listing: every live thread is in it.
    method List() returns (r: Option<seq<nat>>)
      modifies this`failed
      ensures failed <==> old(failed) || r.None?
      ensures r.Some? ==> forall tid :: tid in threads && threads[tid].status != Dead ==> tid in r.value
      ensures r.Some? ==> forall tid :: tid in r.value ==> tid in threads
    {
      var fails: bool, tids: seq<nat> := *, *;
      if !fails && (forall tid :: tid in threads && threads[tid].status != Dead ==> tid in tids)
         && (forall tid :: tid in tids ==> tid in threads) {
        r := Some(tids);
      } else {
        r := None;
        failed := true;
      }
    }

    method Seize(tid: nat) returns (ok: bool)
      requires Valid()
      modifies this`threads, this`failed
      ensures failed <==> old(failed) || !ok
      ensures ok ==> tid in old(threads) && old(threads)[tid].status != Dead
                     && threads == old(threads)[tid := old(threads)[tid].(attached := true)]
      ensures !ok ==> threads == old(threads)
      ensures Valid()
    {
      ok := *;
      ok := ok && tid in threads && threads[tid].status != Dead && !threads[tid].attached;
      if ok {
        threads := threads[tid := threads[tid].(attached := true)];
      }
      failed := failed || !ok;
    }

    // Asks for a stop, which happens (or does not) while the process runs on.
    method Interrupt(tid: nat) returns (ok: bool)
      modifies this`failed
      ensures failed <==> old(failed) || !ok
    {
      ok := *;
      failed := failed || !ok;
    }

    method Cont(tid: nat) returns (ok: bool)
      requires Valid()
      modifies this`threads, this`failed
      ensures failed <==> old(failed) || !ok
      ensures ok ==> tid in old(threads) && old(threads)[tid].status == Stopped
                     && threads == old(threads)[tid := Thread(Running, old(threads)[tid].attached, None)]
      ensures !ok ==> threads == old(threads)
      ensures Valid()
    {
      ok := *;
      ok := ok && tid in threads && threads[tid].status == Stopped;
      if ok {
        threads := threads[tid := Thread(Running, threads[tid].attached, None)];
      }
      failed := failed || !ok;
    }

    method Wait(waitedFor: set<nat>) returns (r: WaitResult)
      requires Valid()
      modifies this
      ensures r.Reaped? ==> r.tid in old(threads) && old(threads)[r.tid].pending == Some(r.event)
                            && threads == old(threads)[r.tid := old(threads)[r.tid].(pending := None)]
      ensures !r.Reaped? ==> threads == old(threads)
      ensures Valid() && patience <= old(patience)
      ensures failed <==> old(failed) || r.WaitFailed?
      ensures signalStops == old(signalStops) + if r.Reaped? && r.event.SignalStop? then 1 else 0
      ensures r.Interrupted? || (r.Reaped? && r.tid !in waitedFor) ==> patience < old(patience)
    {
      var tid: nat, interrupted: bool := *, *;
      if interrupted && patience > 0 {
        patience := patience - 1;
        return Interrupted;
      }
      if tid in threads && threads[tid].pending.Some? && (tid in waitedFor || patience > 0) {
        r := Reaped(tid, threads[tid].pending.value);
        signalStops := signalStops + if r.event.SignalStop? then 1 else 0;
        threads := threads[tid := threads[tid].(pending := None)];
        if tid !in waitedFor {
          patience := patience - 1;
        }
      } else {
        r := WaitFailed;
        failed := true;
      }
    }
  }

  lemma Stutters(threads: Threads)
    requires ValidThreads(threads)
    ensures Evolves(threads, threads)
  {
  }

  // ---- What the tracer knows -------------------------------------------------------------------

  ghost predicate NoDuplicates(s: seq<nat>) {
    forall i, j :: 0 <= i < j < |s| ==> s[i] != s[j]
  }

  // `seized` are the threads attached so far, `running` those whose stop has not been seen yet.
  ghost predicate Knows(threads: Threads, seized: set<nat>, running: set<nat>, attached: seq<nat>) {
    && ValidThreads(threads)
    && (forall tid :: tid in seized ==> tid in threads && threads[tid].attached)
    && (forall tid :: tid in seized && tid !in running ==> threads[tid].status != Running)
    && (forall tid :: tid in seized && threads[tid].status != Dead ==> tid in attached)
    && (forall tid :: tid in attached ==> tid in seized)
    && (forall tid :: tid in running ==> tid in attached)
    && NoDuplicates(attached)
  }

  lemma KnowsValid(threads: Threads, seized: set<nat>, running: set<nat>, attached: seq<nat>)
    requires Knows(threads, seized, running, attached)
    ensures ValidThreads(threads) && NoDuplicates(attached)
  {
  }

  lemma KnowsStill(a: Threads, b: Threads, seized: set<nat>, running: set<nat>, attached: seq<nat>)
    requires Knows(a, seized, running, attached) && ValidThreads(b) && Evolves(a, b)
    ensures Knows(b, seized, running, attached)
  {
  }

  // ---- The result ------------------------------------------------------------------------------

  // Every live thread is traced, stopped, and listed among the attached ones.
  ghost predicate AllStopped(threads: Threads, attached: seq<nat>) {
    forall tid :: tid in threads && threads[tid].status != Dead ==>
      threads[tid].attached && threads[tid].status == Stopped && tid in attached
  }

  // Then it stays so: nothing the process does on its own can start or create a thread.
  lemma StopIsStable(a: Threads, b: Threads, attached: seq<nat>)
    requires AllStopped(a, attached) && Evolves(a, b)
    ensures AllStopped(b, attached)
    ensures forall tid :: tid in b ==> tid in a
  {
  }

  lemma NothingNewIsAllStopped(threads: Threads, listed: seq<nat>, seen: set<nat>, attached: seq<nat>)
    requires Knows(threads, seen, {}, attached)
    requires forall tid :: tid in threads && threads[tid].status != Dead ==> tid in listed
    requires forall tid :: tid in listed ==> tid in seen
    ensures AllStopped(threads, attached)
  {
  }

  // ---- The tracer ------------------------------------------------------------------------------

  const LIMIT: nat := 30

  function Without(s: seq<nat>, tid: nat): (r: seq<nat>)
    ensures forall x :: x in r <==> x in s && x != tid
  {
    if s == [] then [] else (if s[0] == tid then [] else [s[0]]) + Without(s[1..], tid)
  }

  lemma {:induction false} WithoutKeepsDistinct(s: seq<nat>, tid: nat)
    requires NoDuplicates(s)
    ensures NoDuplicates(Without(s, tid))
  {
    if s != [] {
      WithoutKeepsDistinct(s[1..], tid);
      var rest := Without(s[1..], tid);
      forall j | 0 <= j < |rest| ensures rest[j] != s[0] {
        assert rest[j] in s[1..];
      }
    }
  }

  function Elements(s: seq<nat>): set<nat> {
    set tid | tid in s
  }

  class Tracer {
    const target: Target
    var attachedThreads: seq<nat>
    var weirdRaces: nat

    constructor (target: Target)
      ensures this.target == target && attachedThreads == [] && weirdRaces == 0
    {
      this.target := target;
      attachedThreads := [];
      weirdRaces := 0;
    }

    ghost predicate KnowsNow(seized: set<nat>, running: set<nat>)
      reads this, target
    {
      Knows(target.threads, seized, running, attachedThreads)
    }

    // Anything may happen between two calls.
    method Meanwhile(ghost seized: set<nat>, ghost running: set<nat>)
      requires KnowsNow(seized, running)
      modifies target`threads
      ensures KnowsNow(seized, running)
      ensures Evolves(old(target.threads), target.threads)
    {
      target.Run();
      KnowsStill(old(target.threads), target.threads, seized, running, attachedThreads);
    }

    // Seize and interrupt the threads seen for the first time.
    method SeizeAll(added: seq<nat>, ghost seen: set<nat>) returns (ok: bool, running: set<nat>)
      requires KnowsNow(seen, {}) && NoDuplicates(added)
      requires forall tid :: tid in added ==> tid !in seen
      modifies this`attachedThreads, target`threads, target`failed
      ensures ok ==> KnowsNow(seen + Elements(added), running)
      ensures !ok ==> target.failed
    {
      hide Knows, Evolves;
      running := {};
      assert seen + Elements(added[..0]) == seen;
      for i := 0 to |added|
        invariant KnowsNow(seen + Elements(added[..i]), running)
        invariant forall tid :: tid in running ==> tid in added[..i]
      {
        ghost var seized := seen + Elements(added[..i]);
        var tid := added[i];
        Meanwhile(seized, running);
        ghost var before := target.threads;
        KnowsValid(before, seized, running, attachedThreads);
        ok := target.Seize(tid);
        if !ok {
          return;
        }
        assert tid !in seized;
        KnowsSeized(before, target.threads, seized, running, attachedThreads, tid);
        attachedThreads := attachedThreads + [tid];
        running := running + {tid};
        assert seen + Elements(added[..i + 1]) == seized + {tid} by {
          assert added[..i + 1] == added[..i] + [tid];
        }
        Meanwhile(seized + {tid}, running);
        ok := target.Interrupt(tid);
        if !ok {
          return;
        }
      }
      assert added[..|added|] == added;
      ok := true;
    }

    // Wait until every thread of the round has stopped or exited.
    method WaitAll(waiting: set<nat>, ghost seized: set<nat>) returns (ok: bool)
      requires KnowsNow(seized, waiting) && weirdRaces <= LIMIT
      modifies this`attachedThreads, this`weirdRaces, target
      ensures ok ==> KnowsNow(seized, {}) && weirdRaces <= LIMIT
      ensures !ok ==> target.failed || weirdRaces > LIMIT
      ensures weirdRaces - old(weirdRaces) <= target.signalStops - old(target.signalStops)
    {
      hide Knows, Evolves;
      var running := waiting;
      while running != {}
        invariant KnowsNow(seized, running) && weirdRaces <= LIMIT
        invariant weirdRaces - old(weirdRaces) <= target.signalStops - old(target.signalStops)
        decreases LIMIT - weirdRaces, |running|, target.patience
      {
        Meanwhile(seized, running);
        ghost var before := target.threads;
        KnowsValid(before, seized, running, attachedThreads);
        var r := target.Wait(running);
        match r {
          case Interrupted => continue;
          case WaitFailed => return false;
          case Reaped(tid, event) =>
            KnowsReaped(before, target.threads, seized, running, attachedThreads, tid, event);
            if tid !in running {
              continue;
            }
            match event {
              case Exited =>
                KnowsGone(target.threads, seized, running, attachedThreads, tid);
                attachedThreads := Without(attachedThreads, tid);
                running := running - {tid};
              case EventStop =>
                KnowsStopped(target.threads, seized, running, attachedThreads, tid);
                running := running - {tid};
              case SignalStop(signal) =>
                weirdRaces := weirdRaces + 1;
                if weirdRaces > LIMIT {
                  return false;
                }
                ok := Resume(tid, seized, running);
                if !ok {
                  return;
                }
            }
        }
      }
      ok := true;
    }

    // Deliver the signal and ask for a stop again.
    method Resume(tid: nat, ghost seized: set<nat>, ghost running: set<nat>) returns (ok: bool)
      requires KnowsNow(seized, running) && tid in running
      modifies target`threads, target`failed
      ensures ok ==> KnowsNow(seized, running)
      ensures !ok ==> target.failed
    {
      Meanwhile(seized, running);
      ok := target.Cont(tid);
      if !ok {
        return;
      }
      Meanwhile(seized, running);
      ok := target.Interrupt(tid);
    }

    // The attach loop: on success every live thread of the process is traced and stopped. It gives up only if a call
    // fails, if there are too many threads or stops for signals, or if no thread is alive.
    method AttachAll() returns (ok: bool)
      requires attachedThreads == [] && weirdRaces == 0 && target.Valid()
      modifies this, target
      ensures ok ==> AllStopped(target.threads, attachedThreads) && NoDuplicates(attachedThreads)
      ensures ok ==> attachedThreads != []
      ensures !ok ==>
                || target.failed || target.signalStops - old(target.signalStops) > LIMIT || |target.threads| > LIMIT
                || forall tid :: tid in target.threads ==> target.threads[tid].status == Dead
    {
      var seen: set<nat> := {};
      var round := 0;
      ok := false;
      while true
        invariant KnowsNow(seen, {}) && weirdRaces <= LIMIT && !ok && round <= |seen|
        invariant weirdRaces <= target.signalStops - old(target.signalStops)
        decreases LIMIT + 1 - round
      {
        if round > LIMIT {
          SeenAreThreads(target.threads, seen, {}, attachedThreads);
          return;
        }
        Meanwhile(seen, {});
        var listed := target.List();
        if listed.None? {
          return;
        }
        var added := NewOnes(listed.value, seen);
        if added == [] {
          NothingNewIsAllStopped(target.threads, listed.value, seen, attachedThreads);
          break;
        }
        var seized, running := SeizeAll(added, seen);
        if !seized {
          return;
        }
        MoreSeen(seen, added);
        seen := seen + Elements(added);
        var stopped := WaitAll(running, seen);
        if !stopped {
          return;
        }
        round := round + 1;
      }
      ok := attachedThreads != [];
    }

    // The listed threads not seen before, each once.
    static method NewOnes(listed: seq<nat>, seen: set<nat>) returns (added: seq<nat>)
      ensures NoDuplicates(added)
      ensures forall tid :: tid in added <==> tid in listed && tid !in seen
    {
      added := [];
      for i := 0 to |listed|
        invariant NoDuplicates(added)
        invariant forall tid :: tid in added <==> tid in listed[..i] && tid !in seen
      {
        if listed[i] !in seen && listed[i] !in added {
          added := added + [listed[i]];
        }
      }
    }
  }

  lemma SeenAreThreads(threads: Threads, seized: set<nat>, running: set<nat>, attached: seq<nat>)
    requires Knows(threads, seized, running, attached)
    ensures |seized| <= |threads|
  {
    assert seized <= threads.Keys;
    SubsetIsSmaller(seized, threads.Keys);
  }

  lemma SubsetIsSmaller(a: set<nat>, b: set<nat>)
    requires a <= b
    ensures |a| <= |b|
  {
    assert b == a + (b - a);
  }

  lemma MoreSeen(seen: set<nat>, added: seq<nat>)
    requires added != [] && forall tid :: tid in added ==> tid !in seen
    ensures |seen + Elements(added)| > |seen|
  {
    assert added[0] in added && added[0] in Elements(added);
    SubsetIsSmaller(seen + {added[0]}, seen + Elements(added));
  }

  lemma KnowsSeized(a: Threads, b: Threads, seized: set<nat>, running: set<nat>, attached: seq<nat>, tid: nat)
    requires Knows(a, seized, running, attached) && tid !in seized && ValidThreads(b)
    requires tid in a && b == a[tid := a[tid].(attached := true)]
    ensures Knows(b, seized + {tid}, running + {tid}, attached + [tid])
  {
  }

  lemma KnowsGone(threads: Threads, seized: set<nat>, running: set<nat>, attached: seq<nat>, tid: nat)
    requires Knows(threads, seized, running, attached) && tid in running && tid in threads &&
        threads[tid].status == Dead
    ensures Knows(threads, seized, running - {tid}, Without(attached, tid))
  {
    WithoutKeepsDistinct(attached, tid);
  }

  lemma KnowsStopped(threads: Threads, seized: set<nat>, running: set<nat>, attached: seq<nat>, tid: nat)
    requires Knows(threads, seized, running, attached) && tid in threads && threads[tid].status == Stopped
    ensures Knows(threads, seized, running - {tid}, attached)
  {
  }

  lemma KnowsReaped(a: Threads, b: Threads, seized: set<nat>, running: set<nat>, attached: seq<nat>, tid: nat,
                    event: WaitEvent)
    requires Knows(a, seized, running, attached) && ValidThreads(b)
    requires tid in a && a[tid].pending == Some(event) && b == a[tid := a[tid].(pending := None)]
    ensures Knows(b, seized, running, attached)
    ensures event.Exited? ==> b[tid].status == Dead
    ensures !event.Exited? ==> b[tid].status == Stopped
  {
  }
}
