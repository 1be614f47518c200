/** The eligibility scoring policy of analysis.py (`score_eligibility`): count
    the outcomes that carry an integer rating of at least 6 and map that count
    to one of three tiers. */
module Scoring {
  import opened Values

  /** One entry of the list `asyncio.gather(..., return_exceptions=True)`
      produces: the dictionary a task returned, or the exception it raised
      (kept as its `str`). */
  datatype Outcome = Returned(fields: map<string, Value>) | Raised(message: string)

  /** The overall eligibility tier, rendered as "low", "medium" or "high". */
  datatype Tier = Low | Medium | High {
    function Name(): (s: string)
      ensures s in {"low", "medium", "high"}
    {
      match this
      case Low => "low"
      case Medium => "medium"
      case High => "high"
    }

    /** Position of the tier in the order low < medium < high. */
    function Rank(): (n: nat)
      ensures n <= 2
    {
      match this
      case Low => 0
      case Medium => 1
      case High => 2
    }
  }

  /** A rating at or above this value makes a criterion positive. */
  const PositiveRating := 6
  /** Positive counts at or above these values give "medium" and "high". */
  const MediumCount := 3
  const HighCount := 6

  /** The test inside the loop of `score_eligibility`: a dictionary whose
      `rating` (0 when absent) is an `int` of at least 6. */
  predicate IsPositive(o: Outcome)
    ensures IsPositive(o) ==> o.Returned? && "rating" in o.fields
  {
    o.Returned? &&
    match IntOf(GetOr(o.fields, "rating", VInt(0)))
    case Some(r) => r >= PositiveRating
    case None => false
  }

  /** Number of positive outcomes, counted from the front of the list. */
  function PositiveCount(s: seq<Outcome>): (n: nat)
    ensures n <= |s|
  {
    if s == [] then 0
    else PositiveCount(s[..|s| - 1]) + (if IsPositive(s[|s| - 1]) then 1 else 0)
  }

  /** The count reaches the number of outcomes only when every outcome is
      positive, and is 0 only when none is. */
  lemma {:induction false} PositiveCountExtremes(s: seq<Outcome>)
    ensures PositiveCount(s) == |s| ==> forall i :: 0 <= i < |s| ==> IsPositive(s[i])
    ensures PositiveCount(s) == 0 ==> forall i :: 0 <= i < |s| ==> !IsPositive(s[i])
  {
    if s != [] {
      var n := |s| - 1;
      PositiveCountExtremes(s[..n]);
      assert forall i :: 0 <= i < n ==> s[..n][i] == s[i];
    }
  }

  /** The threshold table applied to the positive count. */
  function TierOf(count: nat): (t: Tier)
    ensures t == High <==> count >= HighCount
    ensures t == Medium <==> MediumCount <= count < HighCount
    ensures t == Low <==> count < MediumCount
  {
    if count >= HighCount then High
    else if MediumCount <= count < HighCount then Medium
    else Low
  }

  /** `score_eligibility`: the loop over the responses and the final choice. */
  method ScoreEligibility(responses: seq<Outcome>) returns (tier: Tier)
    ensures tier == TierOf(PositiveCount(responses))
    ensures tier == High <==> PositiveCount(responses) >= 6
    ensures tier == Medium <==> 3 <= PositiveCount(responses) <= 5
    ensures tier == Low <==> PositiveCount(responses) < 3
  {
    var positiveCount := 0;
    var i := 0;
    while i < |responses|
      invariant 0 <= i <= |responses|
      invariant positiveCount == PositiveCount(responses[..i])
    {
      assert responses[..i + 1][..i] == responses[..i];
      if IsPositive(responses[i]) {
        positiveCount := positiveCount + 1;
      }
      i := i + 1;
    }
    assert responses[..i] == responses;
    if positiveCount >= HighCount {
      tier := High;
    } else if MediumCount <= positiveCount < HighCount {
      tier := Medium;
    } else {
      tier := Low;
    }
  }

  /** The count of a concatenation is the sum of the counts. */
  lemma {:induction false} PositiveCountAppend(a: seq<Outcome>, b: seq<Outcome>)
    ensures PositiveCount(a + b) == PositiveCount(a) + PositiveCount(b)
    decreases |b|
  {
    if b == [] {
      assert a + b == a;
    } else {
      var b' := b[..|b| - 1];
      assert (a + b)[..|a + b| - 1] == a + b';
      PositiveCountAppend(a, b');
    }
  }

  /** The count is exactly the number of positions holding a positive outcome:
      order does not matter and every other entry is ignored. */
  lemma {:induction false} PositiveCountIsCardinality(s: seq<Outcome>)
    ensures PositiveCount(s) == |PositivePositions(s)|
  {
    if s != [] {
      var n := |s| - 1;
      PositiveCountIsCardinality(s[..n]);
      PositivePositionsStep(s);
    }
  }

  /** The positions of `s` holding a positive outcome. */
  function PositivePositions(s: seq<Outcome>): set<nat> {
    set i: nat | i < |s| && IsPositive(s[i])
  }

  /** Extending a list by one outcome adds its position exactly when it is
      positive. */
  lemma PositivePositionsStep(s: seq<Outcome>)
    requires s != []
    ensures |PositivePositions(s)| == |PositivePositions(s[..|s| - 1])| + (if IsPositive(s[|s| - 1]) then 1 else 0)
  {
    var n := |s| - 1;
    var before := PositivePositions(s[..n]);
    assert before == set i: nat | i < n && IsPositive(s[i]);
    if IsPositive(s[n]) {
      assert PositivePositions(s) == before + {n};
    } else {
      assert PositivePositions(s) == before;
    }
  }

  /** Inserting an outcome anywhere raises the count by one exactly when the
      outcome is positive, so the tier never drops. */
  lemma InsertNeverLowersTier(s: seq<Outcome>, k: nat, o: Outcome)
    requires k <= |s|
    ensures PositiveCount(s[..k] + [o] + s[k..]) == PositiveCount(s) + (if IsPositive(o) then 1 else 0)
    ensures TierOf(PositiveCount(s)).Rank() <= TierOf(PositiveCount(s[..k] + [o] + s[k..])).Rank()
  {
    PositiveCountInsert(s, k, o);
    TierMonotone(PositiveCount(s), PositiveCount(s[..k] + [o] + s[k..]));
  }

  /** The count after inserting one outcome. */
  lemma PositiveCountInsert(s: seq<Outcome>, k: nat, o: Outcome)
    requires k <= |s|
    ensures PositiveCount(s[..k] + [o] + s[k..]) == PositiveCount(s) + (if IsPositive(o) then 1 else 0)
  {
    PositiveCountAround(s[..k], o, s[k..]);
    SplitAt(s, k);
  }

  /** Cutting a list at a position and gluing the pieces gives it back. */
  lemma SplitAt<T>(s: seq<T>, k: nat)
    requires k <= |s|
    ensures s[..k] + s[k..] == s
  {
  }

  /** Putting a removed element back where it was gives the list back. */
  lemma ReinsertAt<T>(s: seq<T>, k: nat)
    requires k < |s|
    ensures var others := s[..k] + s[k + 1..];
      others[..k] + [s[k]] + others[k..] == s
  {
    var others := s[..k] + s[k + 1..];
    assert others[..k] == s[..k];
    assert others[k..] == s[k + 1..];
  }

  lemma PositiveCountAround(left: seq<Outcome>, o: Outcome, right: seq<Outcome>)
    ensures PositiveCount(left + [o] + right) == PositiveCount(left + right) + (if IsPositive(o) then 1 else 0)
  {
    assert PositiveCount([o]) == (if IsPositive(o) then 1 else 0) by {
      assert [o][..0] == [];
    }
    PositiveCountAppend(left + [o], right);
    PositiveCountAppend(left, [o]);
    PositiveCountAppend(left, right);
  }

  /** The count after removing one outcome. */
  lemma PositiveCountRemove(s: seq<Outcome>, k: nat)
    requires k < |s|
    ensures PositiveCount(s) == PositiveCount(s[..k] + s[k + 1..]) + (if IsPositive(s[k]) then 1 else 0)
  {
    ReinsertAt(s, k);
    PositiveCountInsert(s[..k] + s[k + 1..], k, s[k]);
  }

  /** Outcomes that are captured exceptions or dictionaries without a
      `rating` never count. */
  lemma ErrorsNeverCount(s: seq<Outcome>)
    requires forall i :: 0 <= i < |s| ==> s[i].Raised? || "rating" !in s[i].fields
    ensures PositiveCount(s) == 0
    ensures TierOf(PositiveCount(s)) == Low
  {
    PositiveCountIsCardinality(s);
    assert PositivePositions(s) == {};
  }

  /** A larger positive count never gives a lower tier. */
  lemma TierMonotone(m: nat, n: nat)
    requires m <= n
    ensures TierOf(m).Rank() <= TierOf(n).Rank()
  {
  }
}
