/** The admin dashboard's claim triage: the three review buckets that
    `getFilteredClaims` selects by `authenticity_score` and `Fraud_Risk`, and
    the descending, stable ordering by `rank_score` it then applies in place. */
module ClaimTriage {
  import opened Wrappers
  import opened JsValues
  import opened StableSort

  /** The classification tab of the claims view. */
  datatype Tab = Fraud | Manual | Authentic

  /** The score counts as absent: it is `undefined` or the empty string. */
  predicate ScoreMissing(c: Record)
  {
    var v := Get(c, "authenticity_score");
    v.None? || v == Some(JStr(""))
  }

  /** The score as JavaScript's relational operators see it; `None` is NaN. */
  function Score(c: Record): Option<real>
  {
    ToNumber(Get(c, "authenticity_score"))
  }

  /** `c.Fraud_Risk === 'High'`. */
  predicate HighRisk(c: Record)
  {
    Get(c, "Fraud_Risk") == Some(JStr("High"))
  }

  /** The tab the thresholds 3 and 7 give a numeric score. */
  function ThresholdTab(x: real): Tab
  {
    if x <= 3.0 then Fraud else if x < 7.0 then Manual else Authentic
  }

  /** The filter predicate of each tab. A comparison with NaN is false. A
      missing score belongs to manual review, a numeric one to its threshold
      tab, a NaN one to no tab, and a "High" record to fraud in addition. */
  predicate InBucket(c: Record, tab: Tab): (b: bool)
    ensures ScoreMissing(c) ==> (b <==> tab == Manual || (tab == Fraud && HighRisk(c)))
    ensures !ScoreMissing(c) && Score(c).Some? ==>
      (b <==> tab == ThresholdTab(Score(c).value) || (tab == Fraud && HighRisk(c)))
    ensures !ScoreMissing(c) && Score(c).None? ==> (b <==> tab == Fraud && HighRisk(c))
  {
    match tab
    case Fraud => (!ScoreMissing(c) && Score(c).Some? && Score(c).value <= 3.0) || HighRisk(c)
    case Manual => ScoreMissing(c) || (Score(c).Some? && 3.0 < Score(c).value && Score(c).value < 7.0)
    case Authentic => !ScoreMissing(c) && Score(c).Some? && Score(c).value >= 7.0
  }

  /** `claims.filter(...)` for a tab: a fresh sequence of the records in the bucket. */
  function Bucket(claims: seq<Record>, tab: Tab): (r: seq<Record>)
    ensures forall c :: c in r <==> c in claims && InBucket(c, tab)
  {
    if claims == [] then []
    else (if InBucket(claims[0], tab) then [claims[0]] else []) + Bucket(claims[1..], tab)
  }

  /** The filter keeps every copy of a record in the bucket and no copy of any other. */
  lemma {:induction false} BucketMultiplicity(claims: seq<Record>, tab: Tab, c: Record)
    ensures multiset(Bucket(claims, tab))[c] == if InBucket(c, tab) then multiset(claims)[c] else 0
  {
    if claims != [] {
      BucketMultiplicity(claims[1..], tab, c);
      assert claims == [claims[0]] + claims[1..];
    }
  }

  /** How many of the three buckets a record falls in. */
  function BucketCount(c: Record): nat
  {
    (if InBucket(c, Fraud) then 1 else 0)
    + (if InBucket(c, Manual) then 1 else 0)
    + (if InBucket(c, Authentic) then 1 else 0)
  }

  /** A missing score defaults to manual review, never to authentic, and to
      fraud only when the risk flag is "High". */
  lemma MissingScoreBucket(c: Record)
    requires ScoreMissing(c)
    ensures InBucket(c, Manual) && !InBucket(c, Authentic)
    ensures InBucket(c, Fraud) <==> HighRisk(c)
  {
  }

  /** A present, numeric score `x` places the record by the thresholds 3 and 7. */
  lemma NumericScoreBucket(c: Record, x: real)
    requires !ScoreMissing(c) && Score(c) == Some(x)
    ensures InBucket(c, Fraud) <==> x <= 3.0 || HighRisk(c)
    ensures InBucket(c, Manual) <==> 3.0 < x < 7.0
    ensures InBucket(c, Authentic) <==> x >= 7.0
  {
  }

  /** Every record whose score is numeric or missing is in some bucket; it is
      in exactly one unless it is flagged "High", and in at most two. */
  lemma BucketsCover(c: Record)
    requires ScoreMissing(c) || Score(c).Some?
    ensures BucketCount(c) >= 1
    ensures !HighRisk(c) ==> BucketCount(c) == 1
    ensures BucketCount(c) <= 2
  {
  }

  /** A "High" record is always in the fraud bucket, and also in the manual or
      authentic one exactly when its score is missing or a number above 3. */
  lemma HighRiskOverlap(c: Record)
    requires HighRisk(c)
    ensures InBucket(c, Fraud)
    ensures BucketCount(c) == 2 <==> ScoreMissing(c) || (Score(c).Some? && Score(c).value > 3.0)
  {
  }

  /** A present score that coerces to NaN (text such as "n/a") reaches neither
      the manual nor the authentic bucket, and the fraud one only if "High". */
  lemma UncoercibleScoreBucket(c: Record)
    requires !ScoreMissing(c) && Score(c).None?
    ensures !InBucket(c, Manual) && !InBucket(c, Authentic)
    ensures InBucket(c, Fraud) <==> HighRisk(c)
  {
  }

  /** A `null` score passes the presence test and coerces to 0: fraud bucket. */
  lemma NullScoreBucket(c: Record)
    requires Get(c, "authenticity_score") == Some(JNull)
    ensures InBucket(c, Fraud) && !InBucket(c, Manual) && !InBucket(c, Authentic)
  {
  }

  // ---------------------------------------------------------------------------
  // The score badge of each table row

  /** The colour of the "Auth" badge: green from 7, red up to 3, yellow otherwise. */
  datatype Badge = Green | Red | Yellow

  /** The badge colour of each tab. */
  function TabBadge(tab: Tab): Badge
  {
    match tab
    case Fraud => Red
    case Manual => Yellow
    case Authentic => Green
  }

  /** `score >= 7 ? green : score <= 3 ? red : yellow`, with NaN failing both
      tests: a numeric score shows the colour of its threshold tab, NaN yellow. */
  function ScoreBadge(c: Record): (badge: Badge)
    ensures Score(c).Some? ==> badge == TabBadge(ThresholdTab(Score(c).value))
    ensures Score(c).None? ==> badge == Yellow
  {
    if Score(c).Some? && Score(c).value >= 7.0 then Green
    else if Score(c).Some? && Score(c).value <= 3.0 then Red
    else Yellow
  }

  /** For a present score the badge tells the bucket: green exactly in the
      authentic tab, red only in the fraud tab, yellow with a number only in
      the manual tab. */
  lemma BadgeAgreesWithBucket(c: Record)
    requires !ScoreMissing(c)
    ensures ScoreBadge(c) == Green <==> InBucket(c, Authentic)
    ensures ScoreBadge(c) == Red ==> InBucket(c, Fraud)
    ensures ScoreBadge(c) == Yellow && Score(c).Some? ==> InBucket(c, Manual)
  {
  }

  /** The badge and the buckets read an empty score differently: the filter
      treats it as missing (manual review), the badge converts it to 0 (red). */
  lemma EmptyScoreBadge(c: Record)
    requires Get(c, "authenticity_score") == Some(JStr(""))
    ensures InBucket(c, Manual) && ScoreBadge(c) == Red
  {
  }

  // ---------------------------------------------------------------------------
  // Ordering by rank

  /** The sort key `c.rank_score || 0`; a falsy rank is 0. Every falsy value
      other than `undefined` already converts to 0, so the fallback only
      changes a rank that converts to NaN. */
  function RankKey(c: Record): (key: real)
    ensures key == ToNumber(Get(c, "rank_score")).GetOr(0.0)
  {
    var v := Get(c, "rank_score");
    if Truthy(v) then ToNumber(v).GetOr(0.0) else 0.0
  }

  /** A numeric rank is its own key; a falsy rank (missing, "", 0, null) is 0. */
  lemma RankKeyValue(c: Record)
    ensures !Truthy(Get(c, "rank_score")) ==> RankKey(c) == 0.0
    ensures forall x :: Get(c, "rank_score") == Some(JNum(x)) ==> RankKey(c) == x
  {
  }

  /** `getFilteredClaims()` for a tab: the bucket's records, ordered by
      descending rank, records of equal rank in their original order. */
  function FilteredView(claims: seq<Record>, tab: Tab): (view: seq<Record>)
    ensures StablyOrders(view, Bucket(claims, tab), RankKey)
    ensures multiset(view) == multiset(Bucket(claims, tab))
    ensures forall c :: c in view <==> c in claims && InBucket(c, tab)
  {
    var view := Sort(Bucket(claims, tab), RankKey);
    SortCharacterised(Bucket(claims, tab), view, RankKey);
    assert forall c :: c in view <==> c in multiset(Bucket(claims, tab));
    view
  }

  // The three-record example of the claims view: one record per bucket.
  const ExampleAuthentic: Record := [Field("id", JNum(1.0)), Field("authenticity_score", JNum(8.0)), Field("rank_score", JNum(5.0))]
  const ExampleFraud: Record := [Field("id", JNum(2.0)), Field("authenticity_score", JNum(2.0)), Field("rank_score", JNum(9.0))]
  const ExampleManual: Record := [Field("id", JNum(3.0)), Field("rank_score", JNum(1.0))]

  lemma ExampleBuckets()
    ensures InBucket(ExampleAuthentic, Authentic) && !InBucket(ExampleAuthentic, Fraud) && !InBucket(ExampleAuthentic, Manual)
    ensures InBucket(ExampleFraud, Fraud) && !InBucket(ExampleFraud, Manual) && !InBucket(ExampleFraud, Authentic)
    ensures InBucket(ExampleManual, Manual) && !InBucket(ExampleManual, Fraud) && !InBucket(ExampleManual, Authentic)
  {
    assert Get(ExampleAuthentic, "authenticity_score") == Some(JNum(8.0));
    assert Get(ExampleFraud, "authenticity_score") == Some(JNum(2.0));
    assert Get(ExampleManual, "authenticity_score") == None;
    assert Get(ExampleAuthentic, "Fraud_Risk") == None;
    assert Get(ExampleFraud, "Fraud_Risk") == None;
    assert Get(ExampleManual, "Fraud_Risk") == None;
  }

  lemma SingletonView(r: Record)
    ensures Sort([r], RankKey) == [r]
  {
    assert [r][..0] == [];
  }

  /** The filter looks at the first record, then at the rest. */
  lemma BucketCons(x: Record, rest: seq<Record>, tab: Tab)
    ensures Bucket([x] + rest, tab) == Bucket([x], tab) + Bucket(rest, tab)
    ensures Bucket([x], tab) == if InBucket(x, tab) then [x] else []
  {
    assert ([x] + rest)[0] == x && ([x] + rest)[1..] == rest;
    assert [x][1..] == [];
  }

  /** A two-record list is filtered record by record. */
  lemma BucketOfTwo(b: Record, c: Record, tab: Tab)
    ensures Bucket([b, c], tab) == Bucket([b], tab) + Bucket([c], tab)
  {
    BucketCons(b, [c], tab);
    assert [b] + [c] == [b, c];
  }

  /** A three-record list is filtered record by record. */
  lemma BucketOfThree(a: Record, b: Record, c: Record, tab: Tab)
    ensures Bucket([a, b, c], tab) == Bucket([a], tab) + (Bucket([b], tab) + Bucket([c], tab))
  {
    BucketOfTwo(b, c, tab);
    BucketCons(a, [b, c], tab);
    assert [a] + [b, c] == [a, b, c];
  }

  /** Each tab of the example shows exactly its one record. */
  lemma ThreeRecordExample()
    ensures FilteredView([ExampleAuthentic, ExampleFraud, ExampleManual], Authentic) == [ExampleAuthentic]
    ensures FilteredView([ExampleAuthentic, ExampleFraud, ExampleManual], Fraud) == [ExampleFraud]
    ensures FilteredView([ExampleAuthentic, ExampleFraud, ExampleManual], Manual) == [ExampleManual]
  {
    ExampleBuckets();
    BucketOfThree(ExampleAuthentic, ExampleFraud, ExampleManual, Authentic);
    BucketOfThree(ExampleAuthentic, ExampleFraud, ExampleManual, Fraud);
    BucketOfThree(ExampleAuthentic, ExampleFraud, ExampleManual, Manual);
    SingletonView(ExampleAuthentic);
    SingletonView(ExampleFraud);
    SingletonView(ExampleManual);
  }

}
