/** A shared link with a view limit: a request reads, checks, increments and answers, step by step. */
module Share {
  /** The row of shared_secrets. */
  class SharedSecret {
    const maxViews: nat
    const expiresAt: nat
    var viewCount: nat

    constructor (maxViews: nat, expiresAt: nat)
      ensures this.maxViews == maxViews && this.expiresAt == expiresAt && viewCount == 0
    {
      this.maxViews := maxViews;
      this.expiresAt := expiresAt;
      viewCount := 0;
    }

    predicate Open(now: nat)
      reads this
    {
      now <= expiresAt && (maxViews == 0 || viewCount < maxViews)
    }

    method IncrementShareViewCount() returns (count: nat)
      modifies this
      ensures viewCount == old(viewCount) + 1 && count == viewCount
    {
      viewCount := viewCount + 1;
      count := viewCount;
    }

    /** One request with no other in flight. A failed increment is ignored; a failed decryption still counted. */
    method GetSharedSecret(now: nat, counts: bool, decrypts: bool) returns (served: bool)
      modifies this
      ensures served <==> now <= expiresAt && (maxViews == 0 || old(viewCount) < maxViews) && decrypts
      ensures viewCount == old(viewCount) + if old(Open(now)) && counts then 1 else 0
      ensures var t := Alone(maxViews, State(old(viewCount), 0, 0, map[]), 0, now > expiresAt, counts, decrypts);
              viewCount == t.views && served == (t.served == 1)
    {
      if now > expiresAt {
        return false;
      }
      if maxViews > 0 && viewCount >= maxViews {
        return false;
      }
      if counts {
        var _ := IncrementShareViewCount();
      }
      served := decrypts;
    }
  }

  // ---- Requests in flight together ----

  type RequestId = nat

  /** Where a request in flight stands: before the read, after it with the count it saw, past the checks,
      past the increment. */
  datatype Phase = Arrived | Seen(count: nat) | Cleared | Counted

  datatype State = State(views: nat, failed: nat, served: nat, flight: map<RequestId, Phase>)

  datatype Step =
    | Arrive(r: RequestId)
    | Read(r: RequestId)
    | Check(r: RequestId, expired: bool)
    | Increment(r: RequestId, counts: bool)
    | Answer(r: RequestId, decrypts: bool)

  function Initial(): State {
    State(0, 0, 0, map[])
  }

  predicate At(s: State, r: RequestId, p: Phase) {
    r in s.flight && s.flight[r] == p
  }

  predicate Enabled(inFlight: nat, s: State, step: Step) {
    match step
    case Arrive(r) => r !in s.flight && |s.flight| < inFlight
    case Read(r) => At(s, r, Arrived)
    case Check(r, _) => r in s.flight && s.flight[r].Seen?
    case Increment(r, _) => At(s, r, Cleared)
    case Answer(r, _) => At(s, r, Counted)
  }

  function Next(limit: nat, s: State, step: Step): State
    requires step.Check? ==> step.r in s.flight && s.flight[step.r].Seen?
  {
    match step
    case Arrive(r) => s.(flight := s.flight[r := Arrived])
    case Read(r) => s.(flight := s.flight[r := Seen(s.views)])
    case Check(r, expired) =>
      if expired || (limit > 0 && s.flight[r].count >= limit) then s.(flight := s.flight - {r})
      else s.(flight := s.flight[r := Cleared])
    case Increment(r, counts) =>
      var t := s.(flight := s.flight[r := Counted]);
      if counts then t.(views := s.views + 1) else t.(failed := s.failed + 1)
    case Answer(r, decrypts) =>
      s.(flight := s.flight - {r}, served := if decrypts then s.served + 1 else s.served)
  }

  /** The steps of one request with no other in flight. */
  function Alone(limit: nat, s: State, r: RequestId, expired: bool, counts: bool, decrypts: bool): State
    requires s.flight == map[]
  {
    var checked := Next(limit, Next(limit, Next(limit, s, Arrive(r)), Read(r)), Check(r, expired));
    if r !in checked.flight then checked
    else Next(limit, Next(limit, checked, Increment(r, counts)), Answer(r, decrypts))
  }

  /** They do to the count what GetSharedSecret does, and leave nothing in flight. */
  lemma AloneIsSerial(limit: nat, s: State, r: RequestId, expired: bool, counts: bool, decrypts: bool)
    requires s.flight == map[]
    ensures var t := Alone(limit, s, r, expired, counts, decrypts);
            var isOpen := !expired && (limit == 0 || s.views < limit);
            && t.flight == map[]
            && t.views == s.views + (if isOpen && counts then 1 else 0)
            && t.served == s.served + (if isOpen && decrypts then 1 else 0)
            && t.failed == s.failed + (if isOpen && !counts then 1 else 0)
  {
  }

  /** A run of a link with this limit in which at most inFlight requests are in flight at once. */
  ghost predicate Follows(limit: nat, inFlight: nat, s: State, steps: seq<Step>, t: State)
    decreases |steps|
  {
    if steps == [] then s == t
    else
      var init := steps[..|steps| - 1];
      exists mid :: Follows(limit, inFlight, s, init, mid) && Enabled(inFlight, mid, steps[|steps| - 1])
                    && t == Next(limit, mid, steps[|steps| - 1])
  }

  /** The requests that may still increment: those past the checks, or sure to pass the limit. */
  function Pending(limit: nat, s: State): set<RequestId> {
    set r | r in s.flight && (s.flight[r].Cleared? || (s.flight[r].Seen? && s.flight[r].count < limit))
  }

  function CountedNow(s: State): set<RequestId> {
    set r | r in s.flight && s.flight[r].Counted?
  }

  predicate Inv(limit: nat, inFlight: nat, s: State) {
    && |s.flight| <= inFlight
    && s.views + |Pending(limit, s)| <= limit + inFlight - 1
    && s.served + |CountedNow(s)| <= s.views + s.failed
  }

  lemma SmallerSet<T>(a: set<T>, b: set<T>)
    requires a <= b
    ensures |a| <= |b|
  {
    assert b == a + (b - a);
  }

  /** What each step does to the pending and the counted requests. */
  lemma StepSets(limit: nat, inFlight: nat, s: State, step: Step)
    requires Enabled(inFlight, s, step) && limit > 0
    ensures var t := Next(limit, s, step); var r := step.r;
            match step
            case Arrive(_) => Pending(limit, t) == Pending(limit, s) && CountedNow(t) == CountedNow(s)
            case Read(_) =>
              CountedNow(t) == CountedNow(s)
              && Pending(limit, t) == if s.views < limit then Pending(limit, s) + {r} else Pending(limit, s)
            case Check(_, _) => Pending(limit, t) <= Pending(limit, s) && CountedNow(t) == CountedNow(s)
            case Increment(_, _) =>
              r in Pending(limit, s) && Pending(limit, t) == Pending(limit, s) - {r}
              && CountedNow(t) == CountedNow(s) + {r}
            case Answer(_, _) =>
              r in CountedNow(s) && Pending(limit, t) == Pending(limit, s) && CountedNow(t) == CountedNow(s) - {r}
  {
  }

  lemma StepKeepsInv(limit: nat, inFlight: nat, s: State, step: Step)
    requires Enabled(inFlight, s, step) && limit > 0 && Inv(limit, inFlight, s)
    ensures Inv(limit, inFlight, Next(limit, s, step))
  {
    var t := Next(limit, s, step);
    StepSets(limit, inFlight, s, step);
    SmallerSet(Pending(limit, t), t.flight.Keys);
    if step.Check? {
      SmallerSet(Pending(limit, t), Pending(limit, s));
    }
    hide Pending, CountedNow;
  }

  lemma {:induction false} RunKeepsInv(limit: nat, inFlight: nat, steps: seq<Step>, t: State)
    requires limit > 0 && Follows(limit, inFlight, Initial(), steps, t)
    ensures Inv(limit, inFlight, t)
    decreases |steps|
  {
    hide Inv, Next;
    if steps == [] {
      StartFits(limit, inFlight);
    } else {
      var n := |steps| - 1;
      var mid :| Follows(limit, inFlight, Initial(), steps[..n], mid) && Enabled(inFlight, mid, steps[n])
                 && t == Next(limit, mid, steps[n]);
      RunKeepsInv(limit, inFlight, steps[..n], mid);
      StepKeepsInv(limit, inFlight, mid, steps[n]);
    }
  }

  lemma StartFits(limit: nat, inFlight: nat)
    requires limit > 0
    ensures Inv(limit, inFlight, Initial())
  {
    assert Pending(limit, Initial()) == {} && CountedNow(Initial()) == {};
  }

  /** With at most inFlight requests at once a link is served at most limit + inFlight - 1 times,
      and once more for each failed increment; requests one at a time stay within the limit. */
  lemma ServedAtMost(limit: nat, inFlight: nat, steps: seq<Step>, t: State)
    requires limit > 0 && Follows(limit, inFlight, Initial(), steps, t)
    ensures t.served <= limit + inFlight - 1 + t.failed
  {
    RunKeepsInv(limit, inFlight, steps, t);
  }

  // ---- The bound is reached ----

  lemma FollowsMore(limit: nat, inFlight: nat, s: State, steps: seq<Step>, mid: State, step: Step)
    requires Follows(limit, inFlight, s, steps, mid) && Enabled(inFlight, mid, step)
    ensures Follows(limit, inFlight, s, steps + [step], Next(limit, mid, step))
  {
    assert (steps + [step])[..|steps|] == steps;
  }

  /** The requests 0 to n - 1, all past the checks. */
  function Cohort(n: nat): (c: map<RequestId, Phase>)
    ensures forall r :: r in c <==> 0 <= r < n
    ensures forall r :: r in c ==> c[r] == Cleared
  {
    if n == 0 then map[] else Cohort(n - 1)[n - 1 := Cleared]
  }

  lemma CohortSize(n: nat)
    ensures |Cohort(n)| == n
  {
    if n > 0 {
      CohortSize(n - 1);
      assert Cohort(n).Keys == Cohort(n - 1).Keys + {n - 1} && n - 1 !in Cohort(n - 1);
      assert |Cohort(n)| == |Cohort(n).Keys| && |Cohort(n - 1)| == |Cohort(n - 1).Keys|;
    }
  }

  /** One more request arrives, reads and passes the checks while the count is below the limit. */
  lemma OneClears(limit: nat, inFlight: nat, s: State, steps: seq<Step>, mid: State, n: nat) returns (more: seq<Step>)
    requires Follows(limit, inFlight, s, steps, mid) && mid.flight == Cohort(n) && n < inFlight && mid.views < limit
    ensures Follows(limit, inFlight, s, more, mid.(flight := Cohort(n + 1)))
  {
    CohortSize(n);
    var r: RequestId := n;
    var s1 := Next(limit, mid, Arrive(r));
    var s2 := Next(limit, s1, Read(r));
    var s3 := Next(limit, s2, Check(r, false));
    assert s3.flight == Cohort(n + 1);
    hide Follows, Cohort;
    FollowsMore(limit, inFlight, s, steps, mid, Arrive(r));
    FollowsMore(limit, inFlight, s, steps + [Arrive(r)], s1, Read(r));
    FollowsMore(limit, inFlight, s, steps + [Arrive(r)] + [Read(r)], s2, Check(r, false));
    more := steps + [Arrive(r)] + [Read(r)] + [Check(r, false)];
    assert s3 == mid.(flight := s3.flight);
  }

  /** One request past the checks is answered, however high the count is by now; a failed increment is ignored. */
  lemma OneFinishes(limit: nat, inFlight: nat, s: State, steps: seq<Step>, mid: State, n: nat, counts: bool)
    returns (more: seq<Step>)
    requires Follows(limit, inFlight, s, steps, mid) && mid.flight == Cohort(n + 1)
    ensures Follows(limit, inFlight, s, more, AfterOne(mid, counts, n))
  {
    var r: RequestId := n;
    var s1 := Next(limit, mid, Increment(r, counts));
    var s2 := Next(limit, s1, Answer(r, true));
    assert s2.flight == Cohort(n);
    assert At(mid, r, Cleared);
    hide Follows, Cohort;
    FollowsMore(limit, inFlight, s, steps, mid, Increment(r, counts));
    FollowsMore(limit, inFlight, s, steps + [Increment(r, counts)], s1, Answer(r, true));
    more := steps + [Increment(r, counts)] + [Answer(r, true)];
  }

  function AfterOne(mid: State, counts: bool, n: nat): State {
    if counts then State(mid.views + 1, mid.failed, mid.served + 1, Cohort(n))
    else State(mid.views, mid.failed + 1, mid.served + 1, Cohort(n))
  }

  lemma {:induction false} CohortClears(limit: nat, inFlight: nat, s: State, steps: seq<Step>, mid: State, n: nat)
    returns (more: seq<Step>)
    requires Follows(limit, inFlight, s, steps, mid) && mid.flight == map[] && n <= inFlight && mid.views < limit
    ensures Follows(limit, inFlight, s, more, mid.(flight := Cohort(n)))
  {
    if n == 0 {
      more := steps;
      assert mid.flight == Cohort(0);
    } else {
      more := CohortClears(limit, inFlight, s, steps, mid, n - 1);
      more := OneClears(limit, inFlight, s, more, mid.(flight := Cohort(n - 1)), n - 1);
    }
  }

  lemma {:induction false} CohortFinishes(limit: nat, inFlight: nat, s: State, steps: seq<Step>, mid: State, n: nat)
    returns (more: seq<Step>)
    requires Follows(limit, inFlight, s, steps, mid) && mid.flight == Cohort(n)
    ensures Follows(limit, inFlight, s, more, State(mid.views + n, mid.failed, mid.served + n, map[]))
    decreases n
  {
    if n == 0 {
      more := steps;
      assert Cohort(0) == map[];
    } else {
      more := OneFinishes(limit, inFlight, s, steps, mid, n - 1, true);
      more := CohortFinishes(limit, inFlight, s, more, AfterOne(mid, true, n - 1), n - 1);
    }
  }

  /** One whole request while the limit allows. */
  lemma OneServed(limit: nat, inFlight: nat, steps: seq<Step>, mid: State, counts: bool) returns (more: seq<Step>)
    requires Follows(limit, inFlight, Initial(), steps, mid) && mid.flight == map[] && mid.views < limit && inFlight > 0
    ensures Follows(limit, inFlight, Initial(), more, AfterOne(mid, counts, 0).(flight := map[]))
  {
    assert Cohort(0) == map[];
    hide Follows, Cohort;
    more := CohortClears(limit, inFlight, Initial(), steps, mid, 1);
    more := OneFinishes(limit, inFlight, Initial(), more, mid.(flight := Cohort(1)), 0, counts);
  }

  /** f requests whose increment fails, then n that count, one after another. */
  lemma {:induction false} ServedOneByOne(limit: nat, inFlight: nat, f: nat, n: nat) returns (steps: seq<Step>)
    requires n <= limit && limit > 0 && inFlight > 0
    ensures Follows(limit, inFlight, Initial(), steps, State(n, f, f + n, map[]))
    decreases f + n
  {
    if n == 0 && f == 0 {
      steps := [];
    } else if n == 0 {
      steps := ServedOneByOne(limit, inFlight, f - 1, 0);
      steps := OneServed(limit, inFlight, steps, State(0, f - 1, f - 1, map[]), false);
    } else {
      steps := ServedOneByOne(limit, inFlight, f, n - 1);
      steps := OneServed(limit, inFlight, steps, State(n - 1, f, f + n - 1, map[]), true);
    }
  }

  /** The bound is exact, for any number of failed increments: requests that all read before the last allowed one
      is counted reach it. */
  lemma BoundIsReached(limit: nat, inFlight: nat, failed: nat) returns (steps: seq<Step>, t: State)
    requires limit > 0 && inFlight > 0
    ensures Follows(limit, inFlight, Initial(), steps, t)
    ensures t.failed == failed && t.served == limit + inFlight - 1 + failed
  {
    hide Follows;
    steps := ServedOneByOne(limit, inFlight, failed, limit - 1);
    var mid := State(limit - 1, failed, failed + limit - 1, map[]);
    steps := CohortClears(limit, inFlight, Initial(), steps, mid, inFlight);
    steps := CohortFinishes(limit, inFlight, Initial(), steps, mid.(flight := Cohort(inFlight)), inFlight);
    t := State(limit - 1 + inFlight, failed, failed + limit - 1 + inFlight, map[]);
  }

  /** The limit is a limit exactly when requests come one at a time. */
  lemma LimitHoldsIffSerial(limit: nat, inFlight: nat)
    requires limit > 0
    ensures (forall steps, t :: Follows(limit, inFlight, Initial(), steps, t) && t.failed == 0 ==> t.served <= limit)
       <==> inFlight <= 1
  {
    hide Follows;
    if inFlight <= 1 {
      forall steps, t | Follows(limit, inFlight, Initial(), steps, t) && t.failed == 0 ensures t.served <= limit {
        ServedAtMost(limit, inFlight, steps, t);
      }
    } else {
      var steps, t := BoundIsReached(limit, inFlight, 0);
      assert t.served > limit;
    }
  }
}
