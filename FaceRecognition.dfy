/**
 * The in-browser mock of face recognition (`FaceRecognizeManagement`): a
 * process-wide registry mapping user ids to enrolled faces, whose "features"
 * are 128 numbers derived from a 32-bit string hash of the image data, and a
 * recognizer that returns the first enrolled face whose similarity to the
 * input exceeds 0.8. The artificial delays are not modelled; the enrollment
 * timestamp is an input.
 */
module FaceRecognition {
  import opened Wrappers
  import opened Text
  import opened Lists

  // ---------------------------------------------------------------------------
  // 32-bit arithmetic and the string hash

  const TwoTo31: int := 0x8000_0000
  const TwoTo32: int := 0x1_0000_0000

  /** ECMAScript ToInt32: the 32-bit two's-complement value congruent to `x` modulo 2^32. */
  function ToInt32(x: int): (r: int)
    ensures -TwoTo31 <= r < TwoTo31
    ensures (x - r) % TwoTo32 == 0
  {
    var m := x % TwoTo32;
    if m >= TwoTo31 then m - TwoTo32 else m
  }

  /** Adding a multiple of 2^32 does not change the wrapped value. */
  lemma ToInt32Shift(a: int, k: int)
    ensures ToInt32(a + k * TwoTo32) == ToInt32(a)
  {
    assert (a + k * TwoTo32) % TwoTo32 == a % TwoTo32;
  }

  /** The wrapped value differs from the original by a multiple of 2^32. */
  lemma ToInt32Offset(x: int) returns (k: int)
    ensures x == ToInt32(x) + k * TwoTo32
  {
    k := (x - ToInt32(x)) / TwoTo32;
  }

  /** One round of `simpleHash`: `hash = (hash << 5) - hash + char`, then `hash = hash & hash`. */
  function HashStep(hash: int, unit: int): int {
    ToInt32(ToInt32(ToInt32(hash) * 32) - hash + unit)
  }

  /** The hash accumulated over `units`, before `Math.abs`. */
  function HashOf(units: seq<int>): (h: int)
    ensures -TwoTo31 <= h < TwoTo31
  {
    if units == [] then 0 else HashStep(HashOf(units[..|units| - 1]), units[|units| - 1])
  }

  /** The unbounded polynomial hash: the sum of `units[i] * 31^(n-1-i)`. */
  function Polynomial(units: seq<int>): int {
    if units == [] then 0 else Polynomial(units[..|units| - 1]) * 31 + units[|units| - 1]
  }

  /** On a 32-bit value, one round multiplies by 31, adds the code unit and wraps. */
  lemma HashStepWraps(h: int, c: int)
    requires -TwoTo31 <= h < TwoTo31
    ensures HashStep(h, c) == ToInt32(h * 31 + c)
  {
    assert ToInt32(h) == h;
    var k := ToInt32Offset(h * 32);
    assert ToInt32(h * 32) - h + c == (h * 31 + c) + (-k) * TwoTo32;
    ToInt32Shift(h * 31 + c, -k);
  }

  /** The hash is the polynomial hash with base 31, wrapped to a signed 32-bit integer. */
  lemma {:induction false} HashOfIsWrappedPolynomial(units: seq<int>)
    ensures HashOf(units) == ToInt32(Polynomial(units))
  {
    if units != [] {
      var init := units[..|units| - 1];
      var c := units[|units| - 1];
      HashOfIsWrappedPolynomial(init);
      var h := HashOf(init);
      var p := Polynomial(init);
      HashStepWraps(h, c);
      var k := ToInt32Offset(p);
      assert p * 31 + c == (h * 31 + c) + (31 * k) * TwoTo32;
      ToInt32Shift(h * 31 + c, 31 * k);
    }
  }

  /** `Math.abs` on a 32-bit value. */
  function Abs(x: int): (a: nat)
    ensures a == x || a == -x
  {
    if x < 0 then -x else x
  }

  /** The value `simpleHash(str)` returns. */
  function SimpleHashValue(str: string): (h: nat)
    ensures h <= TwoTo31
  {
    Abs(HashOf(CodeUnits(str)))
  }

  /**
   * `simpleHash`: folds the UTF-16 code units of `str` into a signed 32-bit
   * hash and returns its absolute value, which lies in [0, 2^31].
   */
  method SimpleHash(str: string) returns (hash: int)
    ensures hash == SimpleHashValue(str)
    ensures 0 <= hash <= TwoTo31
    ensures hash == Abs(ToInt32(Polynomial(CodeUnits(str))))
  {
    var units := CodeUnits(str);
    hash := 0;
    var i := 0;
    while i < |units|
      invariant 0 <= i <= |units|
      invariant hash == HashOf(units[..i])
    {
      var ch := units[i];
      ghost var prefix := units[..i + 1];
      assert prefix[..i] == units[..i] && prefix[i] == ch;
      ghost var next := HashStep(hash, ch);
      hash := ToInt32(ToInt32(hash) * 32) - hash + ch;
      hash := ToInt32(hash);
      assert hash == next == HashOf(prefix);
      i := i + 1;
    }
    assert units[..i] == units;
    HashOfIsWrappedPolynomial(units);
    hash := if hash < 0 then -hash else hash;
  }

  // ---------------------------------------------------------------------------
  // Features and similarity

  const FeatureCount: nat := 128

  /** Counting on by one commutes with reducing modulo 256. */
  lemma ModSucc(x: int)
    ensures (x + 1) % 256 == (x % 256 + 1) % 256
  {
    var q, r := x / 256, x % 256;
    assert x == 256 * q + r && 0 <= r < 256;
    if r < 255 {
      assert x + 1 == 256 * q + (r + 1);
    } else {
      assert x + 1 == 256 * (q + 1) + 0;
    }
  }

  /**
   * The 128 features derived from a hash: the first is the hash modulo 256,
   * and each next one is one more, modulo 256.
   */
  function FeaturesFromHash(hash: nat): (f: seq<int>)
    ensures |f| == FeatureCount
    ensures f[0] == hash % 256
    ensures forall i :: 0 <= i < |f| ==> 0 <= f[i] < 256
    ensures forall i :: 0 <= i < |f| - 1 ==> f[i + 1] == (f[i] + 1) % 256
  {
    var f := seq(FeatureCount, i requires 0 <= i < FeatureCount => (hash + i) % 256);
    assert forall i :: 0 <= i < |f| - 1 ==> f[i + 1] == (f[i] + 1) % 256 by {
      forall i | 0 <= i < |f| - 1
        ensures f[i + 1] == (f[i] + 1) % 256
      {
        ModSucc(hash + i);
      }
    }
    f
  }

  /** `extractFaceFeatures`. */
  function ExtractFaceFeatures(imageData: string): seq<int> {
    FeaturesFromHash(SimpleHashValue(imageData))
  }

  function Min(a: int, b: int): int {
    if a <= b then a else b
  }

  /** The sum of `1 - |f1[i] - f2[i]| / 256` over the first `n` positions. */
  function SimilaritySum(f1: seq<int>, f2: seq<int>, n: nat): real
    requires n <= |f1| && n <= |f2|
  {
    if n == 0 then 0.0
    else SimilaritySum(f1, f2, n - 1) + (1.0 - Abs(f1[n - 1] - f2[n - 1]) as real / 256.0)
  }

  /**
   * The mean of the per-position scores over the shorter list; `None` stands
   * for the NaN that `0 / 0` gives when either list is empty.
   */
  function Similarity(f1: seq<int>, f2: seq<int>): (s: Option<real>)
    ensures s.None? <==> f1 == [] || f2 == []
  {
    var n := Min(|f1|, |f2|);
    if n == 0 then None else Some(SimilaritySum(f1, f2, n) / n as real)
  }

  /** `calculateSimilarity`. */
  method CalculateSimilarity(features1: seq<int>, features2: seq<int>) returns (s: Option<real>)
    ensures s == Similarity(features1, features2)
  {
    var n := if |features1| <= |features2| then |features1| else |features2|;
    var similarity := 0.0;
    var i := 0;
    while i < n
      invariant 0 <= i <= n
      invariant similarity == SimilaritySum(features1, features2, i)
    {
      var d := features1[i] - features2[i];
      similarity := similarity + (1.0 - (if d < 0 then -d else d) as real / 256.0);
      i := i + 1;
    }
    s := if n == 0 then None else Some(similarity / n as real);
  }

  lemma {:induction false} SelfSimilaritySum(f: seq<int>, n: nat)
    requires n <= |f|
    ensures SimilaritySum(f, f, n) == n as real
  {
    if n > 0 {
      SelfSimilaritySum(f, n - 1);
    }
  }

  /** A feature list is perfectly similar to itself. */
  lemma SelfSimilarity(f: seq<int>)
    requires f != []
    ensures Similarity(f, f) == Some(1.0)
  {
    SelfSimilaritySum(f, |f|);
    var n := |f| as real;
    assert n / n == 1.0;
  }

  predicate IsFeatureRange(f: seq<int>) {
    forall i :: 0 <= i < |f| ==> 0 <= f[i] < 256
  }

  lemma {:induction false} SimilaritySumBounds(f1: seq<int>, f2: seq<int>, n: nat)
    requires n <= |f1| && n <= |f2| && IsFeatureRange(f1) && IsFeatureRange(f2)
    ensures n as real / 256.0 <= SimilaritySum(f1, f2, n) <= n as real
  {
    if n > 0 {
      SimilaritySumBounds(f1, f2, n - 1);
      assert Abs(f1[n - 1] - f2[n - 1]) <= 255;
    }
  }

  lemma QuotientBounds(a: real, b: real)
    requires 0.0 < b && b / 256.0 <= a <= b
    ensures 0.0 < a / b <= 1.0
  {
    assert a / b * b == a;
  }

  /** Between feature lists of byte values, similarity lies in (0, 1]. */
  lemma SimilarityBounds(f1: seq<int>, f2: seq<int>)
    requires f1 != [] && f2 != [] && IsFeatureRange(f1) && IsFeatureRange(f2)
    ensures 0.0 < Similarity(f1, f2).value <= 1.0
  {
    var n := Min(|f1|, |f2|);
    SimilaritySumBounds(f1, f2, n);
    QuotientBounds(SimilaritySum(f1, f2, n), n as real);
  }

  /** The recognition threshold: a similarity strictly above it is a match (NaN never is). */
  const Threshold: real := 0.8

  predicate IsMatch(score: Option<real>) {
    score.Some? && score.value > Threshold
  }

  // ---------------------------------------------------------------------------
  // The registry

  /** What is stored per enrolled user. */
  datatype FaceEntry<D> = FaceEntry(features: seq<int>, userData: D, enrollmentDate: string)

  datatype Recognition = Recognition(userId: string, confidence: real)

  /**
   * The registry object. `enrolledFaces` is the `Map`'s content and `keyOrder`
   * its iteration order (insertion order), which `recognizeFace` and
   * `getEnrolledUsers` observe.
   */
  class FaceRecognizeManagement<D> {
    var enrolledFaces: map<string, FaceEntry<D>>
    var keyOrder: seq<string>

    /** Every enrolled id occurs exactly once in the iteration order, and nothing else does. */
    ghost predicate Valid()
      reads this
    {
      forall k :: multiset(keyOrder)[k] == if k in enrolledFaces then 1 else 0
    }

    constructor()
      ensures Valid()
      ensures enrolledFaces == map[] && keyOrder == []
    {
      enrolledFaces := map[];
      keyOrder := [];
    }

    /**
     * `enrollFace`: stores the features of `imageData` with the caller's data
     * and the time stamp under `userId`, replacing any earlier entry (which
     * keeps its place in the order; a new id goes last). Always succeeds.
     */
    method EnrollFace(userId: string, imageData: string, userData: D, nowIso: string) returns (ok: bool)
      requires Valid()
      modifies this
      ensures Valid()
      ensures ok
      ensures enrolledFaces == old(enrolledFaces)[userId := FaceEntry(ExtractFaceFeatures(imageData), userData, nowIso)]
      ensures keyOrder == if userId in old(enrolledFaces) then old(keyOrder) else old(keyOrder) + [userId]
    {
      var hash := SimpleHash(imageData);
      var features := FeaturesFromHash(hash);
      if userId !in enrolledFaces {
        keyOrder := keyOrder + [userId];
      }
      enrolledFaces := enrolledFaces[userId := FaceEntry(features, userData, nowIso)];
      ok := true;
    }

    /** `deleteFace`: removes `userId`, reporting whether it was enrolled; other entries stay as they were. */
    method DeleteFace(userId: string) returns (deleted: bool)
      requires Valid()
      modifies this
      ensures Valid()
      ensures deleted == (userId in old(enrolledFaces))
      ensures enrolledFaces == old(enrolledFaces) - {userId}
      ensures keyOrder == Filter(old(keyOrder), k => k != userId)
    {
      deleted := userId in enrolledFaces;
      keyOrder := Filter(keyOrder, k => k != userId);
      enrolledFaces := enrolledFaces - {userId};
    }

    /** `getEnrolledUsers`: every enrolled id once, in insertion order. */
    method GetEnrolledUsers() returns (ids: seq<string>)
      requires Valid()
      ensures NoDuplicates(ids)
      ensures forall k :: k in ids <==> k in enrolledFaces
      ensures ids == keyOrder
    {
      ids := keyOrder;
      AtMostOnceNoDuplicates(ids);
    }

    /**
     * `recognizeFace`: walks the enrolled faces in order and returns the first
     * whose similarity to the features of `imageData` exceeds the threshold,
     * with that similarity as confidence; `None` when no face does.
     */
    method RecognizeFace(imageData: string) returns (r: Option<Recognition>)
      requires Valid()
      ensures r.Some? ==>
        exists i :: 0 <= i < |keyOrder| && keyOrder[i] == r.value.userId
          && keyOrder[i] in enrolledFaces
          && Similarity(ExtractFaceFeatures(imageData), enrolledFaces[keyOrder[i]].features) == Some(r.value.confidence)
          && r.value.confidence > Threshold
          && forall j :: 0 <= j < i ==> !IsMatch(Similarity(ExtractFaceFeatures(imageData), enrolledFaces[keyOrder[j]].features))
      ensures r.None? ==>
        forall k :: k in enrolledFaces ==> !IsMatch(Similarity(ExtractFaceFeatures(imageData), enrolledFaces[k].features))
    {
      OrderListsEnrolled(keyOrder, enrolledFaces);
      var hash := SimpleHash(imageData);
      var input := FeaturesFromHash(hash);
      assert input == ExtractFaceFeatures(imageData);
      var i := 0;
      while i < |keyOrder|
        invariant 0 <= i <= |keyOrder|
        invariant forall j :: 0 <= j < i ==> !IsMatch(Similarity(input, enrolledFaces[keyOrder[j]].features))
      {
        var userId := keyOrder[i];
        var similarity := CalculateSimilarity(input, enrolledFaces[userId].features);
        if similarity.Some? && similarity.value > Threshold {
          assert 0 <= i < |keyOrder| && keyOrder[i] == userId;
          return Some(Recognition(userId, similarity.value));
        }
        i := i + 1;
      }
      forall k | k in enrolledFaces
        ensures !IsMatch(Similarity(input, enrolledFaces[k].features))
      {
        var j :| 0 <= j < |keyOrder| && keyOrder[j] == k;
        assert !IsMatch(Similarity(input, enrolledFaces[keyOrder[j]].features));
      }
      r := None;
    }
  }

  /** An order that lists each enrolled id once, and nothing else, lists exactly the enrolled ids. */
  lemma OrderListsEnrolled<D>(keyOrder: seq<string>, faces: map<string, FaceEntry<D>>)
    requires forall k :: multiset(keyOrder)[k] == if k in faces then 1 else 0
    ensures forall k :: k in keyOrder <==> k in faces
  {
    forall k
      ensures k in keyOrder <==> k in faces
    {
      assert k in keyOrder <==> k in multiset(keyOrder);
    }
  }

  /**
   * Presenting the very image a user was enrolled with is a match for that
   * user's entry, so `recognizeFace` on it never returns `None` (it may still
   * name an earlier-enrolled user whose features are close enough).
   */
  lemma EnrolledImageMatches<D>(imageData: string, faces: map<string, FaceEntry<D>>, userId: string)
    requires userId in faces && faces[userId].features == ExtractFaceFeatures(imageData)
    ensures IsMatch(Similarity(ExtractFaceFeatures(imageData), faces[userId].features))
  {
    SelfSimilarity(ExtractFaceFeatures(imageData));
  }

  /** The static `instance` slot behind `getInstance`. */
  class Singleton<D> {
    var instance: FaceRecognizeManagement?<D>

    ghost predicate Valid()
      reads this, instance
    {
      instance != null ==> instance.Valid()
    }

    constructor()
      ensures Valid() && instance == null
    {
      instance := null;
    }

    /**
     * `getInstance`: the one registry, created empty on first use and the
     * same object, untouched, on every later call.
     */
    method GetInstance() returns (r: FaceRecognizeManagement<D>)
      requires Valid()
      modifies this
      ensures Valid() && instance == r
      ensures old(instance) != null ==> r == old(instance) && unchanged(r)
      ensures old(instance) == null ==> fresh(r) && r.enrolledFaces == map[] && r.keyOrder == []
    {
      if instance == null {
        instance := new FaceRecognizeManagement();
      }
      r := instance;
    }
  }
}
