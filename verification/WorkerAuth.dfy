/** Signed worker requests: the message that is signed, and which requests the authorizer lets through. */
module WorkerAuth {
  import opened Basics
  import opened JsStrings
  import opened ByteStrings

  const NEWLINE: CodeUnit := 10
  const MAX_CLOCK_SKEW_SECONDS := 300

  // ---------- numbers ----------

  predicate IsDigit(c: CodeUnit) { 48 <= c <= 57 }

  predicate AllDigits(s: JsString) {
    forall i | 0 <= i < |s| :: IsDigit(s[i])
  }

  /** A number in a template string. */
  function Decimal(n: nat): (r: JsString)
    ensures r != [] && AllDigits(r)
  {
    if n < 10 then [48 + n] else Decimal(n / 10) + [48 + n % 10]
  }

  /** `Number` of a string of digits. */
  function NumberOf(s: JsString): nat
    requires AllDigits(s)
  {
    if s == [] then 0 else NumberOf(s[..|s| - 1]) * 10 + (s[|s| - 1] - 48)
  }

  lemma {:induction false} NumberOfDecimal(n: nat)
    ensures NumberOf(Decimal(n)) == n
  {
    if n >= 10 {
      NumberOfDecimal(n / 10);
      assert Decimal(n)[..|Decimal(n)| - 1] == Decimal(n / 10);
    }
  }

  function Tens(k: nat): nat { if k == 0 then 1 else 10 * Tens(k - 1) }

  /** Of two digits the one further left counts ten times as much. */
  lemma {:induction false} LeadingDigitCounts(c: CodeUnit, s: JsString)
    requires IsDigit(c) && AllDigits(s)
    ensures AllDigits([c] + s) && NumberOf([c] + s) == (c - 48) * Tens(|s|) + NumberOf(s)
  {
    if s == [] {
      assert NumberOf([c][..0]) == 0;
    } else {
      var rest, last := s[..|s| - 1], s[|s| - 1] - 48;
      LeadingDigitCounts(c, rest);
      assert ([c] + s)[..|s|] == [c] + rest;
      assert NumberOf([c] + s) == NumberOf([c] + rest) * 10 + last;
      assert (c - 48) * Tens(|rest|) * 10 == (c - 48) * Tens(|s|);
    }
  }

  // ---------- the signed message ----------

  function Canonical(timestamp: nat, nonce: JsString, scope: JsString, body: JsString): JsString {
    Decimal(timestamp) + [NEWLINE] + (nonce + [NEWLINE] + (scope + [NEWLINE] + body))
  }

  lemma {:induction false} FirstLine(a: JsString, b: JsString, x: JsString, y: JsString)
    requires NEWLINE !in a && NEWLINE !in b && a + [NEWLINE] + x == b + [NEWLINE] + y
    ensures a == b && x == y
  {
    var s := a + [NEWLINE] + x;
    assert s[|a|] == NEWLINE;
    assert s == b + [NEWLINE] + y && s[|b|] == NEWLINE;
    assert forall i | 0 <= i < |a| :: s[i] == a[i] && a[i] in a;
    assert forall i | 0 <= i < |b| :: s[i] == b[i] && b[i] in b;
    assert |a| == |b|;
    assert a == s[..|a|] == b;
    assert x == s[|a| + 1..] == y;
  }

  lemma {:induction false} FirstBreak(line: JsString, rest: JsString)
    requires NEWLINE !in line
    ensures var s := line + [NEWLINE] + rest; IndexOf(s, NEWLINE) == |line| && s[..|line|] == line && s[|line| + 1..] == rest
  {
    var s := line + [NEWLINE] + rest;
    assert s[|line|] == NEWLINE && forall i | 0 <= i < |line| :: s[i] == line[i];
  }

  /** Read line by line: time stamp, nonce and scope, and after the third break the body. */
  lemma CanonicalReadsBack(t: nat, n: JsString, s: JsString, b: JsString)
    requires 10 !in n && 10 !in s
    ensures var m := Canonical(t, n, s, b); var i := IndexOf(m, 10);
            i != -1 && m[..i] == Decimal(t)
            && var m1 := m[i + 1..]; var j := IndexOf(m1, 10);
               j != -1 && m1[..j] == n
               && var m2 := m1[j + 1..]; var k := IndexOf(m2, 10);
                  k != -1 && m2[..k] == s && m2[k + 1..] == b
  {
    var m2 := s + [NEWLINE] + b;
    var m1 := n + [NEWLINE] + m2;
    FirstBreak(Decimal(t), m1);
    FirstBreak(n, m2);
    FirstBreak(s, b);
    assert Canonical(t, n, s, b) == Decimal(t) + [NEWLINE] + m1;
  }

  /** The message determines every part of the request, whatever line breaks the body holds. */
  lemma CanonicalIsInjective(t: nat, n: JsString, s: JsString, b: JsString, t': nat, n': JsString, s': JsString, b': JsString)
    requires 10 !in n && 10 !in s && 10 !in n' && 10 !in s'
    ensures Canonical(t, n, s, b) == Canonical(t', n', s', b') <==> t == t' && n == n' && s == s' && b == b'
  {
    if Canonical(t, n, s, b) == Canonical(t', n', s', b') {
      FirstLine(Decimal(t), Decimal(t'), n + [NEWLINE] + (s + [NEWLINE] + b), n' + [NEWLINE] + (s' + [NEWLINE] + b'));
      FirstLine(n, n', s + [NEWLINE] + b, s' + [NEWLINE] + b');
      FirstLine(s, s', b, b');
      NumberOfDecimal(t);
      NumberOfDecimal(t');
    }
  }

  /** Without the shape checks it would not: a line break in the scope can move into the body. */
  lemma NewlineInScopeIsAmbiguous(t: nat, n: JsString, s: JsString, b: JsString)
    ensures Canonical(t, n, s + [10] + s, b) == Canonical(t, n, s, s + [10] + b)
  {
    assert s + [NEWLINE] + s + [NEWLINE] + b == s + [NEWLINE] + (s + [NEWLINE] + b);
  }

  // ---------- the shape checks ----------

  predicate IsScope(s: JsString) {
    1 <= |s| <= 64 && forall i | 0 <= i < |s| :: 97 <= s[i] <= 122 || IsDigit(s[i]) || s[i] == 45
  }

  predicate IsTimestamp(s: JsString) {
    |s| == 10 && AllDigits(s)
  }

  predicate IsUuid(s: JsString) {
    && |s| == 36
    && (forall i | 0 <= i < 36 :: if i == 8 || i == 13 || i == 18 || i == 23 then s[i] == 45 else HexValue(s[i]) >= 0)
    && 49 <= s[14] <= 53
    && LowerUnit(s[19]) in {56, 57, 97, 98}
  }

  /** `v1=` and 64 digits, in either case. */
  predicate IsSignature(s: JsString) {
    && |s| == 67 && LowerUnit(s[0]) == 118 && s[1] == 49 && s[2] == 61
    && IsHex(s[3..])
  }

  lemma ShapesHaveNoNewline(nonce: JsString, scope: JsString)
    ensures IsUuid(nonce) ==> NEWLINE !in nonce && NEWLINE !in Lower(nonce) && IsUuid(Lower(nonce))
    ensures IsScope(scope) ==> NEWLINE !in scope
  {
    if IsUuid(nonce) {
      forall i | 0 <= i < 36 ensures nonce[i] != NEWLINE && Lower(nonce)[i] != NEWLINE {
        assert i == 8 || i == 13 || i == 18 || i == 23 || HexValue(nonce[i]) >= 0;
      }
    }
  }

  // ---------- signing and authorizing ----------

  /** HMAC-SHA-256 of a message under a secret: 32 bytes. */
  type Mac = (JsString, JsString) -> seq<Byte>

  ghost predicate IsMac(mac: Mac) {
    forall secret, message :: |mac(secret, message)| == 32
  }

  const PREFIX: JsString := [118, 49, 61]

  function Signature(mac: Mac, secret: JsString, timestamp: nat, nonce: JsString, scope: JsString, body: JsString): JsString {
    PREFIX + BytesToHex(mac(secret, Canonical(timestamp, nonce, scope, body)))
  }

  datatype Headers = Headers(timestamp: JsString, nonce: JsString, signature: JsString)

  datatype Authorization = Authorization(nonce: JsString, scope: JsString, timestamp: nat)

  function Abs(x: int): nat { if x < 0 then -x else x }

  /** An ASCII string as `TextEncoder` writes it. */
  function Encoded(s: JsString): (bytes: seq<Byte>)
    requires forall i | 0 <= i < |s| :: s[i] < 128
    ensures |bytes| == |s| && forall i | 0 <= i < |s| :: bytes[i] == s[i]
  {
    seq(|s|, i requires 0 <= i < |s| => s[i])
  }

  predicate ShapesHold(h: Headers, secret: JsString, scope: JsString, nowSeconds: int) {
    && |secret| >= 32 && IsScope(scope)
    && IsTimestamp(h.timestamp) && IsUuid(h.nonce)
    && Abs(nowSeconds - NumberOf(h.timestamp)) <= MAX_CLOCK_SKEW_SECONDS
    && IsSignature(h.signature)
  }

  /** The request has the right shape and carries the signature of its own parts. */
  predicate Accepts(h: Headers, secret: JsString, scope: JsString, body: JsString, nowSeconds: int, mac: Mac) {
    && ShapesHold(h, secret, scope, nowSeconds)
    && Lower(h.signature) == Signature(mac, secret, NumberOf(h.timestamp), Lower(h.nonce), scope, body)
  }

  /** `authorizeWorkerRequest`; the order of the checks cannot be told from outside. */
  method Authorize(h: Headers, secret: JsString, scope: JsString, body: JsString, nowSeconds: int, mac: Mac)
    returns (r: Option<Authorization>)
    requires IsMac(mac)
    ensures r.Some? <==> Accepts(h, secret, scope, body, nowSeconds, mac)
    ensures r.Some? ==> r.value == Authorization(Lower(h.nonce), scope, NumberOf(h.timestamp))
  {
    if |secret| < 32 || !IsScope(scope) { return None; }
    if !IsTimestamp(h.timestamp) || !IsUuid(h.nonce) { return None; }
    var timestamp := NumberOf(h.timestamp);
    if Abs(nowSeconds - timestamp) > MAX_CLOCK_SKEW_SECONDS { return None; }
    if !IsSignature(h.signature) { return None; }
    var expected := Signature(mac, secret, timestamp, Lower(h.nonce), scope, body);
    HeaderIsAscii(h.signature);
    SignatureIsAscii(mac(secret, Canonical(timestamp, Lower(h.nonce), scope, body)));
    var equal := ConstantTimeEqual(Encoded(Lower(h.signature)), Encoded(expected));
    EncodedIsInjective(Lower(h.signature), expected);
    if !equal { return None; }
    r := Some(Authorization(Lower(h.nonce), scope, timestamp));
  }

  lemma HexIsAscii(hex: JsString)
    requires IsHex(hex)
    ensures forall i | 0 <= i < |hex| :: hex[i] < 128
  {
    assert forall i | 0 <= i < |hex| :: HexValue(hex[i]) >= 0;
  }

  lemma HeaderIsAscii(header: JsString)
    requires IsSignature(header)
    ensures forall i | 0 <= i < |header| :: Lower(header)[i] < 128
  {
    HexIsAscii(header[3..]);
    assert forall i | 3 <= i < |header| :: header[i] == header[3..][i - 3];
  }

  lemma SignatureIsAscii(digest: seq<Byte>)
    ensures forall i | 0 <= i < |PREFIX + BytesToHex(digest)| :: (PREFIX + BytesToHex(digest))[i] < 128
  {
    ReadWhatWasWritten(digest);
    HexIsAscii(BytesToHex(digest));
  }

  lemma EncodedIsInjective(a: JsString, b: JsString)
    requires forall i | 0 <= i < |a| :: a[i] < 128
    requires forall i | 0 <= i < |b| :: b[i] < 128
    ensures Encoded(a) == Encoded(b) <==> a == b
  {
    if Encoded(a) == Encoded(b) {
      assert forall i | 0 <= i < |a| :: a[i] == Encoded(a)[i] == Encoded(b)[i] == b[i];
    }
  }

  /** A signature is well formed and in lower case already. */
  lemma SignatureShape(mac: Mac, secret: JsString, timestamp: nat, nonce: JsString, scope: JsString, body: JsString)
    requires IsMac(mac)
    ensures
      var signature := Signature(mac, secret, timestamp, nonce, scope, body);
      IsSignature(signature) && Lower(signature) == signature
  {
    var digest := mac(secret, Canonical(timestamp, nonce, scope, body));
    var hex := BytesToHex(digest);
    ReadWhatWasWritten(digest);
    WriteWhatWasRead(hex);
    assert (PREFIX + hex)[3..] == hex;
    assert Lower(PREFIX + hex) == PREFIX + Lower(hex);
  }

  /** What acceptance asks of a request, character by character and second by second. */
  lemma AcceptanceMeaning(h: Headers, secret: JsString, scope: JsString, body: JsString, nowSeconds: int, mac: Mac)
    ensures Accepts(h, secret, scope, body, nowSeconds, mac) <==>
      && |secret| >= 32
      && 1 <= |scope| <= 64 && (forall c | c in scope :: 97 <= c <= 122 || 48 <= c <= 57 || c == 45)
      && |h.timestamp| == 10 && (forall i | 0 <= i < 10 :: 48 <= h.timestamp[i] <= 57)
      && -300 <= nowSeconds - NumberOf(h.timestamp) <= 300
      && |h.nonce| == 36
      && (forall i | 0 <= i < 36 :: if i in {8, 13, 18, 23} then h.nonce[i] == 45 else IsHexDigit(h.nonce[i]))
      && 49 <= h.nonce[14] <= 53 && h.nonce[19] in {56, 57, 97, 98, 65, 66}
      && |h.signature| == 67 && h.signature[0] in {118, 86} && h.signature[1] == 49 && h.signature[2] == 61
      && (forall i | 3 <= i < 67 :: IsHexDigit(h.signature[i]))
      && Lower(h.signature) == [118, 49, 61] + BytesToHex(mac(secret, Canonical(NumberOf(h.timestamp), Lower(h.nonce), scope, body)))
  {
    assert forall c | c in scope :: exists i :: 0 <= i < |scope| && scope[i] == c;
    assert forall i | 0 <= i < |scope| :: scope[i] in scope;
    assert forall i | 0 <= i < |h.timestamp| :: h.timestamp[i] in h.timestamp;
    if |h.signature| == 67 {
      assert forall i | 3 <= i < 67 :: h.signature[i] == h.signature[3..][i - 3];
      assert IsHex(h.signature[3..]) <==> forall i | 3 <= i < 67 :: IsHexDigit(h.signature[i]);
    }
  }

  /** A digit, or a letter from a to f in either case. */
  predicate IsHexDigit(c: CodeUnit) {
    48 <= c <= 57 || 97 <= c <= 102 || 65 <= c <= 70
  }

  /** Whatever the case the nonce and the digits are sent in, a freshly signed request passes. */
  lemma SignedRequestsPass(h: Headers, secret: JsString, scope: JsString, body: JsString, nowSeconds: int, mac: Mac)
    requires IsMac(mac) && |secret| >= 32 && IsScope(scope) && IsTimestamp(h.timestamp) && IsUuid(h.nonce)
    requires Abs(nowSeconds - NumberOf(h.timestamp)) <= MAX_CLOCK_SKEW_SECONDS
    ensures Accepts(h, secret, scope, body, nowSeconds, mac) <==>
      Lower(h.signature) == Signature(mac, secret, NumberOf(h.timestamp), Lower(h.nonce), scope, body)
  {
    var signature := Signature(mac, secret, NumberOf(h.timestamp), Lower(h.nonce), scope, body);
    SignatureShape(mac, secret, NumberOf(h.timestamp), Lower(h.nonce), scope, body);
    if Lower(h.signature) == signature {
      assert forall i | 0 <= i < 67 :: LowerUnit(h.signature[i]) == signature[i];
      forall i | 0 <= i < 64 ensures HexValue(h.signature[3..][i]) >= 0 {
        assert HexValue(signature[3..][i]) >= 0;
      }
    }
  }

  /**
   One signature authorizes one request: two accepted requests that carry the same signature have the same
   timestamp, nonce, scope and body, unless the MAC itself collides on their two messages.
   */
  lemma OneSignatureOneRequest(h: Headers, scope: JsString, body: JsString, now: int,
                               h': Headers, scope': JsString, body': JsString, now': int, secret: JsString, mac: Mac)
    requires IsMac(mac) && Accepts(h, secret, scope, body, now, mac) && Accepts(h', secret, scope', body', now', mac)
    requires Lower(h.signature) == Lower(h'.signature)
    ensures
      var message := Canonical(NumberOf(h.timestamp), Lower(h.nonce), scope, body);
      var message' := Canonical(NumberOf(h'.timestamp), Lower(h'.nonce), scope', body');
      && mac(secret, message) == mac(secret, message')
      && (message == message' <==>
            NumberOf(h.timestamp) == NumberOf(h'.timestamp) && Lower(h.nonce) == Lower(h'.nonce)
            && scope == scope' && body == body')
  {
    var t, t' := NumberOf(h.timestamp), NumberOf(h'.timestamp);
    var digest := mac(secret, Canonical(t, Lower(h.nonce), scope, body));
    var digest' := mac(secret, Canonical(t', Lower(h'.nonce), scope', body'));
    assert (PREFIX + BytesToHex(digest))[3..] == BytesToHex(digest);
    assert (PREFIX + BytesToHex(digest'))[3..] == BytesToHex(digest');
    ReadWhatWasWritten(digest);
    ReadWhatWasWritten(digest');
    ShapesHaveNoNewline(h.nonce, scope);
    ShapesHaveNoNewline(h'.nonce, scope');
    CanonicalIsInjective(t, Lower(h.nonce), scope, body, t', Lower(h'.nonce), scope', body');
  }
}
