/** Profile-photo object names: the checks the cleanup queue makes, and what the app generates. */
module PhotoPaths {
  import opened JsStrings

  type Path = JsString

  const DOT: CodeUnit := 46
  const BACKSLASH: CodeUnit := 92
  const MAX_PATH_LENGTH := 1_024

  predicate UnsafeUnit(u: CodeUnit) { u == BACKSLASH || u <= 0x1f || u == 0x7f }

  /** `value.split('/')`. */
  function Split(s: JsString): (parts: seq<JsString>)
    ensures |parts| >= 1
    decreases |s|
  {
    var i := IndexOf(s, SLASH);
    if i == -1 then [s] else [s[..i]] + Split(s[i + 1..])
  }

  predicate SegmentAllowed(segment: JsString) {
    segment != [] && segment != [DOT] && segment != [DOT, DOT]
  }

  /** `isOwnedProfilePhotoPath`. */
  predicate IsOwnedPath(owner: JsString, path: Path) {
    && |path| <= MAX_PATH_LENGTH
    && (forall i | 0 <= i < |path| :: !UnsafeUnit(path[i]))
    && var segments := Split(path);
    && |segments| >= 2
    && Lower(segments[0]) == Lower(owner)
    && forall i | 1 <= i < |segments| :: SegmentAllowed(segments[i])
  }

  /** The check on a photo that is said to exist already. */
  predicate IsOwnUploadPath(owner: JsString, path: Path) {
    owner + [SLASH] <= path && |Split(path)| == 2
  }

  /** At `p` stands this segment: no slash in it, and a slash or an end on either side. */
  predicate SegmentAt(s: JsString, p: int, segment: JsString) {
    && 0 <= p && p + |segment| <= |s| && s[p..p + |segment|] == segment && SLASH !in segment
    && (p == 0 || s[p - 1] == SLASH) && (p + |segment| == |s| || s[p + |segment|] == SLASH)
  }

  lemma SplitAtFirst(s: JsString)
    requires IndexOf(s, SLASH) != -1
    ensures Split(s) == [s[..IndexOf(s, SLASH)]] + Split(s[IndexOf(s, SLASH) + 1..])
  {
  }

  /** What a slash at `i` separates: what stands behind it in the whole stands in the rest. */
  lemma SegmentBehindSlash(s: JsString, i: nat, p: int, segment: JsString)
    requires i < |s| && s[i] == SLASH && p > i
    ensures SegmentAt(s, p, segment) <==> SegmentAt(s[i + 1..], p - i - 1, segment)
  {
    var rest := s[i + 1..];
    if p + |segment| <= |s| { assert s[p..p + |segment|] == rest[p - i - 1..p - i - 1 + |segment|]; }
  }

  /** A segment after the first slash, or anywhere behind it. */
  ghost predicate IsLater(s: JsString, segment: JsString) { exists p :: p > 0 && SegmentAt(s, p, segment) }

  ghost predicate IsAnywhere(s: JsString, segment: JsString) { exists p :: SegmentAt(s, p, segment) }

  lemma LaterIsInTheRest(s: JsString, i: nat, segment: JsString)
    requires i < |s| && s[i] == SLASH && SLASH !in s[..i]
    ensures IsLater(s, segment) <==> IsAnywhere(s[i + 1..], segment)
  {
    if IsLater(s, segment) {
      var p :| p > 0 && SegmentAt(s, p, segment);
      assert forall k | 0 <= k < i :: s[k] == s[..i][k];
      SegmentBehindSlash(s, i, p, segment);
    }
    if IsAnywhere(s[i + 1..], segment) {
      var p :| SegmentAt(s[i + 1..], p, segment);
      SegmentBehindSlash(s, i, p + i + 1, segment);
    }
  }

  lemma NoSlashNoLater(s: JsString)
    requires SLASH !in s
    ensures SegmentAt(s, 0, s) && forall segment :: !IsLater(s, segment)
  {
  }

  lemma FirstOrLater(s: JsString, first: JsString, segment: JsString)
    requires SegmentAt(s, 0, first)
    ensures IsAnywhere(s, segment) <==> segment == first || IsLater(s, segment)
  {
    if SegmentAt(s, 0, segment) { OneFirstSegment(s, segment, first); }
    hide SegmentAt;
    assert forall p | SegmentAt(s, p, segment) :: p == 0 || p > 0 by { NoNegative(s, segment); }
  }

  lemma NoNegative(s: JsString, segment: JsString)
    ensures forall p | SegmentAt(s, p, segment) :: p >= 0
  {
  }

  lemma BehindFirstSlash(s: JsString, i: nat, rest: JsString, segments: seq<JsString>)
    requires i < |s| && s[i] == SLASH && SLASH !in s[..i] && rest == s[i + 1..]
    requires forall segment :: segment in segments <==> IsAnywhere(rest, segment)
    ensures forall segment :: segment in segments <==> IsLater(s, segment)
  {
    hide SegmentAt, IsLater, IsAnywhere;
    forall segment ensures segment in segments <==> IsLater(s, segment) { LaterIsInTheRest(s, i, segment); }
  }

  lemma FirstThenLater(s: JsString, segments: seq<JsString>)
    requires segments != [] && SegmentAt(s, 0, segments[0])
    requires forall segment :: segment in segments[1..] <==> IsLater(s, segment)
    ensures forall segment :: segment in segments <==> IsAnywhere(s, segment)
  {
    hide SegmentAt, IsLater, IsAnywhere;
    assert segments == [segments[0]] + segments[1..];
    forall segment ensures segment in segments <==> IsAnywhere(s, segment) { FirstOrLater(s, segments[0], segment); }
  }

  /** `split` gives the segments: the one at the start, and then those behind a slash. */
  lemma {:induction false} SplitMeaning(s: JsString)
    ensures SegmentAt(s, 0, Split(s)[0]) && (|Split(s)| == 1 <==> SLASH !in s)
    ensures forall segment :: segment in Split(s)[1..] <==> IsLater(s, segment)
    ensures forall segment :: segment in Split(s) <==> IsAnywhere(s, segment)
    decreases |s|
  {
    var i := IndexOf(s, SLASH);
    if i == -1 {
      assert Split(s) == [s];
      NoSlashNoLater(s);
      hide Split, SegmentAt, IsLater, IsAnywhere;
    } else {
      SplitAtFirst(s);
      assert SegmentAt(s, 0, s[..i]);
      hide Split, SegmentAt, IsLater, IsAnywhere;
      SplitMeaning(s[i + 1..]);
      BehindFirstSlash(s, i, s[i + 1..], Split(s[i + 1..]));
      assert Split(s)[1..] == Split(s[i + 1..]);
    }
    hide Split, SegmentAt, IsLater, IsAnywhere;
    FirstThenLater(s, Split(s));
  }

  lemma OneFirstSegment(s: JsString, a: JsString, b: JsString)
    requires SegmentAt(s, 0, a) && SegmentAt(s, 0, b)
    ensures a == b
  {
    assert forall k | 0 <= k < |a| :: a[k] == s[..|a|][k] == s[k];
    assert forall k | 0 <= k < |b| :: b[k] == s[..|b|][k] == s[k];
    assert |a| == |b|;
  }

  lemma LaterSegmentsAllowed(path: JsString)
    ensures
      var segments := Split(path);
      (forall i | 1 <= i < |segments| :: SegmentAllowed(segments[i]))
      <==> forall later | IsLater(path, later) :: later != [] && later != [46] && later != [46, 46]
  {
    var segments := Split(path);
    SplitMeaning(path);
    hide Split, IsLater, IsAnywhere, SegmentAt;
    forall i | 1 <= i < |segments| ensures IsLater(path, segments[i]) {
      assert segments[i] == segments[1..][i - 1];
      assert segments[i] in segments[1..];
    }
    forall later | IsLater(path, later) ensures exists i :: 1 <= i < |segments| && segments[i] == later {
      var k :| 0 <= k < |segments[1..]| && segments[1..][k] == later;
      assert segments[k + 1] == later;
    }
  }

  lemma FirstSegmentOwned(owner: JsString, path: JsString)
    ensures |Split(path)| >= 2 <==> SLASH in path
    ensures Lower(Split(path)[0]) == Lower(owner) <==> exists first :: SegmentAt(path, 0, first) && Lower(first) == Lower(owner)
  {
    SplitMeaning(path);
    forall first | SegmentAt(path, 0, first) ensures first == Split(path)[0] { OneFirstSegment(path, first, Split(path)[0]); }
    hide Split, SegmentAt, IsLater, IsAnywhere;
  }

  /** The tombstone filter, on the text of the path. */
  lemma OwnedPathMeaning(owner: JsString, path: JsString)
    ensures IsOwnedPath(owner, path) <==>
      && |path| <= 1024 && (forall i | 0 <= i < |path| :: path[i] > 31 && path[i] != 92 && path[i] != 127)
      && SLASH in path && (exists first :: SegmentAt(path, 0, first) && Lower(first) == Lower(owner))
      && forall later | IsLater(path, later) :: later != [] && later != [46] && later != [46, 46]
  {
    LaterSegmentsAllowed(path);
    FirstSegmentOwned(owner, path);
    hide Split, SegmentAt, IsLater, SegmentAllowed;
  }

  lemma SplitOwned(owner: JsString, path: JsString)
    requires SLASH !in owner && owner + [SLASH] <= path
    ensures |Split(path)| == 2 <==> SLASH !in path[|owner| + 1..]
  {
    assert path[..|owner|] == owner && path[|owner|] == SLASH;
    assert IndexOf(path, SLASH) == |owner| by { assert SLASH in path; }
    SplitAtFirst(path);
    SplitMeaning(path[|owner| + 1..]);
  }

  /** The check on an existing photo: the owner's folder, and no slash behind it. */
  lemma OwnUploadPathMeaning(owner: JsString, path: JsString)
    requires SLASH !in owner
    ensures IsOwnUploadPath(owner, path) <==>
      |path| > |owner| && path[..|owner|] == owner && path[|owner|] == SLASH && SLASH !in path[|owner| + 1..]
  {
    if owner + [SLASH] <= path { SplitOwned(owner, path); }
    if |path| > |owner| && path[..|owner|] == owner && path[|owner|] == SLASH {
      assert path[..|owner| + 1] == owner + [SLASH];
    }
    hide Split;
  }

  function NewPhotoPath(owner: JsString, id: JsString, extension: JsString): Path {
    owner + [SLASH] + id + [DOT] + extension
  }

  /** An identifier as the client makes one, and an extension: printable, and no path syntax in it. */
  predicate PlainName(name: JsString) {
    && 0 < |name| <= 64
    && forall i | 0 <= i < |name| :: !UnsafeUnit(name[i]) && name[i] != SLASH && name[i] != DOT
  }

  lemma SplitAtSlash(head: JsString, tail: JsString)
    requires SLASH !in head && SLASH !in tail
    ensures Split(head + [SLASH] + tail) == [head, tail]
  {
    var s := head + [SLASH] + tail;
    assert s[|head|] == SLASH;
    var i := IndexOf(s, SLASH);
    assert i == |head|;
    assert s[..i] == head && s[i + 1..] == tail;
  }

  /** Every path the app uploads passes both checks, so no tombstone of it is ever filtered out. */
  lemma GeneratedPathsAreOwned(owner: JsString, id: JsString, extension: JsString)
    requires PlainName(owner) && PlainName(id) && PlainName(extension)
    ensures IsOwnedPath(owner, NewPhotoPath(owner, id, extension))
    ensures IsOwnUploadPath(owner, NewPhotoPath(owner, id, extension))
  {
    var path, name := NewPhotoPath(owner, id, extension), id + [DOT] + extension;
    assert path == owner + [SLASH] + name;
    SplitAtSlash(owner, name);
    assert |name| >= 3;
  }
}
