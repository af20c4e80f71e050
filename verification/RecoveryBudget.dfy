/** How often the event loop may be brought back after an exit nobody asked for. */
module RecoveryBudget {
  import opened Basics

  const MAX_RECOVERIES := 3

  /** Ten minutes in nanoseconds. */
  const RECOVERY_WINDOW := 600 * 1_000_000_000

  type Time = nat

  /** `saturating_duration_since(at) >= RECOVERY_WINDOW` at `now`. */
  predicate Expired(at: Time, now: Time) {
    Max(now - at, 0) >= RECOVERY_WINDOW
  }

  // ----- The queue -----

  function Drop(recent: seq<Time>, now: Time): seq<Time> {
    if recent != [] && Expired(recent[0], now) then Drop(recent[1..], now) else recent
  }

  /** The queue after asking at `now`. */
  function Taken(recent: seq<Time>, now: Time): seq<Time> {
    var rest := Drop(recent, now);
    if |rest| >= MAX_RECOVERIES then rest else rest + [now]
  }

  function Answer(recent: seq<Time>, now: Time): Option<nat> {
    var rest := Drop(recent, now);
    if |rest| >= MAX_RECOVERIES then None else Some(|rest| + 1)
  }

  /** The queue after asking at each of `times`, from a fresh budget. */
  function Queue(times: seq<Time>): seq<Time> {
    if times == [] then [] else Taken(Queue(times[..|times| - 1]), times[|times| - 1])
  }

  class RecoveryBudget {
    var recent: seq<Time>

    constructor ()
      ensures recent == Queue([])
    {
      recent := [];
    }

    method Take(now: Time) returns (attempt: Option<nat>)
      modifies this
      ensures recent == Taken(old(recent), now)
      ensures attempt == Answer(old(recent), now)
    {
      while recent != [] && Expired(recent[0], now)
        invariant Drop(recent, now) == Drop(old(recent), now)
        decreases |recent|
      {
        recent := recent[1..];
      }
      if |recent| >= MAX_RECOVERIES {
        return None;
      }
      recent := recent + [now];
      return Some(|recent|);
    }
  }

  // ----- The rule -----

  /** The members of `grants` younger than the window at `now`. */
  function Young(grants: seq<Time>, now: Time): seq<Time> {
    if grants == [] then []
    else (if Expired(grants[0], now) then [] else [grants[0]]) + Young(grants[1..], now)
  }

  /** A recovery is granted exactly while fewer than three younger than the window were granted. */
  function Grants(times: seq<Time>): seq<Time> {
    if times == [] then []
    else
      var before, now := Grants(times[..|times| - 1]), times[|times| - 1];
      if |Young(before, now)| < MAX_RECOVERIES then before + [now] else before
  }

  ghost predicate NonDecreasing(times: seq<Time>) {
    forall i, j :: 0 <= i < j < |times| ==> times[i] <= times[j]
  }

  ghost predicate UpTo(times: seq<Time>, now: Time) {
    forall i :: 0 <= i < |times| ==> times[i] <= now
  }

  lemma {:induction false} YoungOfSnoc(grants: seq<Time>, x: Time, now: Time)
    ensures Young(grants + [x], now) == Young(grants, now) + if Expired(x, now) then [] else [x]
  {
    if grants != [] {
      assert (grants + [x])[1..] == grants[1..] + [x];
      YoungOfSnoc(grants[1..], x, now);
    } else {
      assert [x][1..] == [] && grants + [x] == [x];
    }
  }

  lemma {:induction false} AllYoung(grants: seq<Time>, now: Time)
    requires NonDecreasing(grants) && (grants == [] || !Expired(grants[0], now))
    ensures Young(grants, now) == grants
  {
    if |grants| > 1 {
      AllYoung(grants[1..], now);
    }
  }

  /** Dropping from the front is enough: what was young before and is not dropped is what is young now. */
  lemma {:induction false} DropIsYoung(grants: seq<Time>, before: Time, now: Time)
    requires NonDecreasing(grants) && before <= now
    ensures Drop(Young(grants, before), now) == Young(grants, now)
  {
    if grants == [] {
    } else if Expired(grants[0], before) {
      assert Young(grants, before) == Young(grants[1..], before) && Young(grants, now) == Young(grants[1..], now);
      DropIsYoung(grants[1..], before, now);
    } else {
      AllYoung(grants, before);
      DropAll(grants, now);
    }
  }

  lemma {:induction false} DropAll(grants: seq<Time>, now: Time)
    requires NonDecreasing(grants)
    ensures Drop(grants, now) == Young(grants, now)
  {
    if grants != [] && Expired(grants[0], now) {
      DropAll(grants[1..], now);
    } else if grants != [] {
      AllYoung(grants, now);
    }
  }

  lemma {:induction false} GrantsAreTimes(times: seq<Time>)
    requires NonDecreasing(times)
    ensures NonDecreasing(Grants(times))
    ensures times == [] ==> Grants(times) == []
    ensures times != [] ==> UpTo(Grants(times), times[|times| - 1])
  {
    if times != [] {
      var front, now := times[..|times| - 1], times[|times| - 1];
      GrantsAreTimes(front);
      if front != [] {
        assert times[|times| - 2] <= now;
      }
    }
  }

  /** For every non-decreasing sequence of failures the queue is exactly the granted recoveries younger
      than the window, and asking once more is answered by how many there are. */
  lemma {:induction false} QueueIsYoungGrants(times: seq<Time>)
    requires NonDecreasing(times) && times != []
    ensures Queue(times) == Young(Grants(times), times[|times| - 1])
    ensures var before, now := times[..|times| - 1], times[|times| - 1];
            var young := |Young(Grants(before), now)|;
            Answer(Queue(before), now) == if young < MAX_RECOVERIES then Some(young + 1) else None
  {
    var front, now := times[..|times| - 1], times[|times| - 1];
    GrantsAreTimes(front);
    if front != [] {
      QueueIsYoungGrants(front);
      assert front[|front| - 1] <= now;
      DropIsYoung(Grants(front), front[|front| - 1], now);
    }
    assert Drop(Queue(front), now) == Young(Grants(front), now);
    YoungOfSnoc(Grants(front), now, now);
  }

  // ----- How often recoveries happen -----

  ghost predicate Spaced(grants: seq<Time>) {
    forall i :: 0 <= i < |grants| - 3 ==> grants[i + 3] as int - grants[i] as int >= 600_000_000_000
  }

  lemma {:induction false} YoungTail(grants: seq<Time>, k: nat, now: Time)
    requires NonDecreasing(grants) && k < |grants| && !Expired(grants[k], now)
    ensures |Young(grants, now)| >= |grants| - k
  {
    if k == 0 {
      AllYoung(grants, now);
    } else {
      YoungTail(grants[1..], k - 1, now);
    }
  }

  /** Any four successive recoveries span at least the window. */
  lemma {:induction false} GrantsAreSpaced(times: seq<Time>)
    requires NonDecreasing(times)
    ensures Spaced(Grants(times))
  {
    if times != [] {
      var front, now := times[..|times| - 1], times[|times| - 1];
      GrantsAreSpaced(front);
      GrantsAreTimes(front);
      var before := Grants(front);
      if |before| >= MAX_RECOVERIES && |Young(before, now)| < MAX_RECOVERIES {
        var k := |before| - MAX_RECOVERIES;
        if !Expired(before[k], now) {
          YoungTail(before, k, now);
        }
        assert now - before[k] >= RECOVERY_WINDOW;
      }
    }
  }

  /** A refusal happens exactly when the three latest recoveries all lie within the window. */
  lemma RefusedIff(times: seq<Time>, now: Time)
    requires NonDecreasing(times) && UpTo(times, now)
    ensures Answer(Queue(times), now).None? <==>
              var grants := Grants(times);
              |grants| >= 3 && now - grants[|grants| - 3] < 600_000_000_000
  {
    hide Queue, Answer, Grants, Drop;
    var all := times + [now];
    assert all[..|all| - 1] == times;
    assert NonDecreasing(all);
    QueueIsYoungGrants(all);
    GrantsAreTimes(times);
    var grants := Grants(times);
    if |grants| >= MAX_RECOVERIES {
      var k := |grants| - MAX_RECOVERIES;
      if !Expired(grants[k], now) {
        YoungTail(grants, k, now);
      } else {
        OldHead(grants, k, now);
      }
    } else {
      YoungIsShorter(grants, now);
    }
  }

  lemma {:induction false} YoungIsShorter(grants: seq<Time>, now: Time)
    ensures |Young(grants, now)| <= |grants|
  {
    if grants != [] {
      YoungIsShorter(grants[1..], now);
    }
  }

  lemma {:induction false} OldHead(grants: seq<Time>, k: nat, now: Time)
    requires NonDecreasing(grants) && k < |grants| && Expired(grants[k], now)
    ensures |Young(grants, now)| < |grants| - k
  {
    if k == 0 {
      YoungIsShorter(grants[1..], now);
    } else {
      assert grants[0] <= grants[k];
      OldHead(grants[1..], k - 1, now);
    }
  }

  // ----- The supervisor -----

  datatype Next = Return | Recover(attempt: nat) | GiveUp

  method Decide(quitRequested: bool, budget: RecoveryBudget, now: Time) returns (next: Next)
    modifies budget
    ensures quitRequested ==> next == Return && budget.recent == old(budget.recent)
    ensures !quitRequested ==> budget.recent == Taken(old(budget.recent), now)
    ensures !quitRequested ==>
              next == (match Answer(old(budget.recent), now) case None => GiveUp case Some(n) => Recover(n))
  {
    if quitRequested {
      return Return;
    }
    var attempt := budget.Take(now);
    return match attempt case None => GiveUp case Some(n) => Recover(n);
  }

  /** One return of the event loop: whether the app had asked to quit, when, and the loop's error. */
  datatype Exit = Exit(quitRequested: bool, at: Time, error: Option<string>)

  datatype Outcome = Ended(result: Option<string>) | Abandoned(error: string) | Running

  function Times(exits: seq<Exit>): (r: seq<Time>)
    ensures |r| == |exits| && forall i :: 0 <= i < |exits| ==> r[i] == exits[i].at
  {
    seq(|exits|, i requires 0 <= i < |exits| => exits[i].at)
  }

  const KEPT_STOPPING := "the event loop kept stopping without a quit request"

  /** The first `n` exits were failures, each answered with its number among those in the window. */
  ghost predicate Recovered(exits: seq<Exit>, n: nat, attempts: seq<nat>)
    requires n <= |exits|
  {
    && |attempts| == n
    && Spaced(Times(exits[..n]))
    && forall i :: 0 <= i < n ==> !exits[i].quitRequested && NumberedAt(exits, i, attempts[i])
  }

  ghost predicate NumberedAt(exits: seq<Exit>, i: nat, attempt: nat)
    requires i < |exits|
  {
    1 <= attempt <= 3 && attempt == |Young(Times(exits[..i]), exits[i].at)| + 1
  }

  /** The failure at `n` comes too soon after the third last recovery. */
  ghost predicate TooSoon(exits: seq<Exit>, n: nat)
    requires n < |exits|
  {
    n >= 3 && exits[n].at - exits[n - 3].at < 600_000_000_000
  }

  lemma NextExit(exits: seq<Exit>, n: nat)
    requires NonDecreasing(Times(exits)) && n < |exits| && Grants(Times(exits[..n])) == Times(exits[..n])
    ensures Times(exits[..n + 1]) == Times(exits[..n]) + [exits[n].at]
    ensures Queue(Times(exits[..n + 1])) == Taken(Queue(Times(exits[..n])), exits[n].at)
    ensures Answer(Queue(Times(exits[..n])), exits[n].at).None? <==> TooSoon(exits, n)
    ensures !TooSoon(exits, n) ==>
              && NumberedAt(exits, n, Answer(Queue(Times(exits[..n])), exits[n].at).value)
              && Grants(Times(exits[..n + 1])) == Times(exits[..n + 1])
  {
    hide Answer, Young, Taken, Queue, Grants;
    var times, all := Times(exits[..n]), Times(exits[..n + 1]);
    assert all == times + [exits[n].at];
    assert NonDecreasing(all) && UpTo(times, exits[n].at) by { TimesOfFirst(exits, n); }
    OneMoreTime(times, exits[n].at);
    RefusedIff(times, exits[n].at);
  }

  lemma TimesOfFirst(exits: seq<Exit>, n: nat)
    requires NonDecreasing(Times(exits)) && n < |exits|
    ensures NonDecreasing(Times(exits[..n + 1])) && UpTo(Times(exits[..n]), exits[n].at)
  {
    var first := Times(exits[..n + 1]);
    forall i, j | 0 <= i < j < |first|
      ensures first[i] <= first[j]
    {
      assert Times(exits)[i] <= Times(exits)[j];
    }
    forall i | 0 <= i < n
      ensures Times(exits[..n])[i] <= exits[n].at
    {
      assert Times(exits)[i] <= Times(exits)[n];
    }
  }

  lemma OneMoreTime(times: seq<Time>, now: Time)
    requires NonDecreasing(times + [now])
    ensures Queue(times + [now]) == Taken(Queue(times), now)
    ensures var young := |Young(Grants(times), now)|;
            && Answer(Queue(times), now) == (if young < MAX_RECOVERIES then Some(young + 1) else None)
            && Grants(times + [now]) == if young < MAX_RECOVERIES then Grants(times) + [now] else Grants(times)
  {
    hide Answer, Young, Taken;
    var all := times + [now];
    assert all[..|all| - 1] == times && all[|all| - 1] == now;
    QueueIsYoungGrants(all);
  }

  lemma GrantedAreSpaced(exits: seq<Exit>, n: nat)
    requires NonDecreasing(Times(exits)) && n <= |exits| && Grants(Times(exits[..n])) == Times(exits[..n])
    ensures Spaced(Times(exits[..n]))
  {
    forall i, j | 0 <= i < j < n
      ensures Times(exits[..n])[i] <= Times(exits[..n])[j]
    {
      assert Times(exits)[i] <= Times(exits)[j];
    }
    GrantsAreSpaced(Times(exits[..n]));
  }

  /** `run_until_quit` over the exits of the event loop: it ends with the first exit that was asked for,
      or with the first one that comes too soon; all before are recovered from. */
  method RunUntilQuit(exits: seq<Exit>) returns (outcome: Outcome, attempts: seq<nat>)
    requires NonDecreasing(Times(exits))
    ensures |attempts| <= |exits| && Recovered(exits, |attempts|, attempts)
    ensures outcome.Running? <==> |attempts| == |exits|
    ensures outcome.Ended? <==> |attempts| < |exits| && exits[|attempts|].quitRequested
    ensures outcome.Ended? ==> outcome.result == exits[|attempts|].error
    ensures outcome.Abandoned? ==>
              && TooSoon(exits, |attempts|)
              && outcome.error == (match exits[|attempts|].error case None => KEPT_STOPPING case Some(e) => e)
  {
    hide Spaced, Grants, Queue, Taken, Answer, NumberedAt, TooSoon;
    var budget := new RecoveryBudget();
    attempts := [];
    NoTimes(exits);
    for k := 0 to |exits|
      invariant k == |attempts|
      invariant budget.recent == Queue(Times(exits[..k])) && Grants(Times(exits[..k])) == Times(exits[..k])
      invariant forall i :: 0 <= i < k ==> !exits[i].quitRequested && NumberedAt(exits, i, attempts[i])
      invariant fresh(budget)
    {
      GrantedAreSpaced(exits, k);
      var next := Decide(exits[k].quitRequested, budget, exits[k].at);
      if next == Return {
        return Ended(exits[k].error), attempts;
      }
      NextExit(exits, k);
      if next.Recover? {
        attempts := attempts + [next.attempt];
      } else {
        return Abandoned(match exits[k].error case None => KEPT_STOPPING case Some(e) => e), attempts;
      }
    }
    GrantedAreSpaced(exits, |exits|);
    return Running, attempts;
  }

  lemma NoTimes(exits: seq<Exit>)
    ensures Times(exits[..0]) == [] && Queue([]) == [] && Grants([]) == []
  {
  }
}
