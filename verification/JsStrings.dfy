/** JavaScript strings as sequences of UTF-16 code units, ordered as `<` orders them. */
module JsStrings {

  type CodeUnit = u: nat | u < 0x1_0000
  type JsString = seq<CodeUnit>

  const SLASH: CodeUnit := 47

  /** The relational operator `<` on two strings: lexicographic by code unit. */
  predicate Less(a: JsString, b: JsString) {
    b != [] && (a == [] || a[0] < b[0] || (a[0] == b[0] && Less(a[1..], b[1..])))
  }

  /** `s.indexOf(c)`. */
  function IndexOf(s: JsString, c: CodeUnit): (i: int)
    ensures -1 <= i < |s|
    ensures i >= 0 ==> s[i] == c && c !in s[..i]
    ensures i == -1 <==> c !in s
  {
    if s == [] then -1
    else if s[0] == c then 0
    else
      var rest := IndexOf(s[1..], c);
      assert rest >= 0 ==> s[..rest + 1] == [s[0]] + s[1..][..rest];
      assert s == [s[0]] + s[1..];
      if rest == -1 then -1 else rest + 1
  }

  /** Lower-casing, as far as a comparison with an ASCII identifier can see it. */
  function LowerUnit(u: CodeUnit): CodeUnit {
    if 65 <= u <= 90 then u + 32 else u
  }

  function Lower(s: JsString): (t: JsString)
    ensures |t| == |s|
    ensures forall i | 0 <= i < |s| :: t[i] == LowerUnit(s[i])
  {
    seq(|s|, i requires 0 <= i < |s| => LowerUnit(s[i]))
  }

  lemma LowerConcat(a: JsString, b: JsString)
    ensures Lower(a + b) == Lower(a) + Lower(b)
  {
  }

  lemma {:induction false} LessIrreflexive(a: JsString)
    ensures !Less(a, a)
  {
    if a != [] { LessIrreflexive(a[1..]); }
  }

  lemma {:induction false} LessTransitive(a: JsString, b: JsString, c: JsString)
    requires Less(a, b) && Less(b, c)
    ensures Less(a, c)
  {
    if a != [] && a[0] == b[0] == c[0] { LessTransitive(a[1..], b[1..], c[1..]); }
  }

  lemma {:induction false} LessTotal(a: JsString, b: JsString)
    ensures Less(a, b) || a == b || Less(b, a)
  {
    if a != [] && b != [] && a[0] == b[0] {
      LessTotal(a[1..], b[1..]);
      assert a == [a[0]] + a[1..] && b == [b[0]] + b[1..];
    }
  }

  /** They agree up to `k`, where the first ends before the second or has the smaller unit. */
  predicate PartsAt(a: JsString, b: JsString, k: nat) {
    && k <= |a| && k < |b| && a[..k] == b[..k]
    && (k == |a| || a[k] < b[k])
  }

  lemma {:induction false} LessMeaning(a: JsString, b: JsString)
    ensures Less(a, b) <==> exists k: nat :: PartsAt(a, b, k)
  {
    if a != [] && b != [] && a[0] == b[0] {
      LessMeaning(a[1..], b[1..]);
      forall k: nat | PartsAt(a, b, k) ensures PartsAt(a[1..], b[1..], k - 1) {
        assert a[1..][..k - 1] == a[..k][1..] && b[1..][..k - 1] == b[..k][1..];
      }
      forall k: nat | PartsAt(a[1..], b[1..], k) ensures PartsAt(a, b, k + 1) {
        assert a[..k + 1] == [a[0]] + a[1..][..k] && b[..k + 1] == [b[0]] + b[1..][..k];
      }
    } else if b != [] && Less(a, b) {
      assert PartsAt(a, b, 0);
    }
  }

  /** What a database needs of the order its text column is compared in. */
  ghost predicate IsCollation(less: (JsString, JsString) -> bool) {
    && (forall a :: !less(a, a))
    && (forall a, b, c :: less(a, b) && less(b, c) ==> less(a, c))
    && (forall a, b :: less(a, b) || a == b || less(b, a))
    && (forall a: JsString :: a != [] ==> less([], a))
  }

  lemma LessIsCollation()
    ensures IsCollation(Less)
  {
    forall a ensures !Less(a, a) { LessIrreflexive(a); }
    forall a, b, c | Less(a, b) && Less(b, c) ensures Less(a, c) { LessTransitive(a, b, c); }
    forall a, b ensures Less(a, b) || a == b || Less(b, a) { LessTotal(a, b); }
  }
}
