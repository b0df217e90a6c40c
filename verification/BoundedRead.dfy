/** Reading a response body chunk by chunk under a byte limit, and decoding it. */
module BoundedRead {
  import opened JsStrings
  import opened ByteStrings

  /** What `reader.read()` gives until it is done: a chunk, a turn without a value, or a rejection. */
  datatype Item = Chunk(bytes: seq<Byte>) | NoValue | Broken

  function Content(items: seq<Item>): seq<Byte> {
    if items == [] then []
    else Content(items[..|items| - 1]) + if items[|items| - 1].Chunk? then items[|items| - 1].bytes else []
  }

  datatype ReadResult = Assembled(bytes: seq<Byte>) | TooLarge | Interrupted

  /** The item the reader stops at: the first rejection, or the first chunk past the limit. */
  function StopAt(items: seq<Item>, maxBytes: nat): (n: nat)
    ensures n <= |items|
  {
    if items == [] then 0
    else
      var n := |items| - 1;
      var before := StopAt(items[..n], maxBytes);
      if before < n then before
      else if items[n].Broken? || |Content(items)| > maxBytes then n
      else n + 1
  }

  function Reading(items: seq<Item>, maxBytes: nat): ReadResult {
    var n := StopAt(items, maxBytes);
    if n == |items| then Assembled(Content(items))
    else if items[n].Broken? then Interrupted
    else TooLarge
  }

  lemma {:induction false} ContentGrows(items: seq<Item>, n: nat)
    requires n <= |items|
    ensures Content(items[..n]) <= Content(items)
    decreases |items|
  {
    if n < |items| {
      ContentGrows(items[..|items| - 1], n);
      assert items[..|items| - 1][..n] == items[..n];
    } else {
      assert items[..n] == items;
    }
  }

  lemma StopOneFurther(items: seq<Item>, maxBytes: nat)
    requires items != []
    ensures
      var m := |items| - 1;
      var before := StopAt(items[..m], maxBytes);
      StopAt(items, maxBytes)
      == if before < m then before else if items[m].Broken? || |Content(items)| > maxBytes then m else m + 1
  {
    hide Content;
  }

  /** What the reader holds never exceeds the limit, and only a rejection or a chunk too many stops it. */
  lemma {:induction false} StopMeaning(items: seq<Item>, maxBytes: nat)
    ensures
      var n := StopAt(items, maxBytes);
      && Broken !in items[..n] && |Content(items[..n])| <= maxBytes
      && (n < |items| ==> items[n].Broken? || |Content(items[..n + 1])| > maxBytes)
  {
    if items != [] {
      hide Content, StopAt;
      var m := |items| - 1;
      var before := StopAt(items[..m], maxBytes);
      StopMeaning(items[..m], maxBytes);
      StopOneFurther(items, maxBytes);
      assert items[..m][..before] == items[..before] && items[..m + 1] == items == items[..m] + [items[m]];
      if before < m {
        assert items[..m][..before + 1] == items[..before + 1];
      } else if items[m].Broken? || |Content(items)| > maxBytes {
        assert StopAt(items, maxBytes) == m;
      } else {
        assert StopAt(items, maxBytes) == m + 1;
      }
    }
  }

  /** A body is assembled exactly when it is not interrupted and fits, and then it is the chunks in order. */
  lemma ReadingMeaning(items: seq<Item>, maxBytes: nat)
    ensures Reading(items, maxBytes).Assembled? <==> Broken !in items && |Content(items)| <= maxBytes
    ensures Reading(items, maxBytes).Assembled? ==> Reading(items, maxBytes).bytes == Content(items)
    ensures Reading(items, maxBytes).TooLarge? ==> |Content(items)| > maxBytes
    ensures Reading(items, maxBytes).Interrupted? ==> Broken in items
  {
    var n := StopAt(items, maxBytes);
    StopMeaning(items, maxBytes);
    if n == |items| {
      assert items[..n] == items;
    } else {
      ContentGrows(items, n + 1);
      assert items[n] in items;
    }
  }

  /** More bytes come, before any rejection, than are allowed. */
  ghost predicate Overflows(items: seq<Item>, maxBytes: nat) {
    exists n | 0 <= n <= |items| :: Broken !in items[..n] && |Content(items[..n])| > maxBytes
  }

  /** A rejection comes, and no more bytes before it than are allowed. */
  ghost predicate BreaksOff(items: seq<Item>, maxBytes: nat) {
    exists n | 0 <= n < |items| :: items[n] == Broken && Broken !in items[..n] && |Content(items[..n])| <= maxBytes
  }

  lemma LongerPrefixesHoldMore(items: seq<Item>, a: nat, b: nat)
    requires a <= b <= |items|
    ensures |Content(items[..a])| <= |Content(items[..b])|
  {
    ContentGrows(items[..b], a);
    assert items[..b][..a] == items[..a];
  }

  lemma OverflowStops(items: seq<Item>, maxBytes: nat, m: nat)
    requires m <= |items| && Broken !in items[..m] && |Content(items[..m])| > maxBytes
    ensures Reading(items, maxBytes).TooLarge?
  {
    hide Content, StopAt;
    var n := StopAt(items, maxBytes);
    StopMeaning(items, maxBytes);
    if m <= n {
      LongerPrefixesHoldMore(items, m, n);
    } else {
      assert items[..m][n] == items[n];
    }
  }

  lemma BreakStops(items: seq<Item>, maxBytes: nat, m: nat)
    requires m < |items| && items[m] == Broken && Broken !in items[..m] && |Content(items[..m])| <= maxBytes
    ensures Reading(items, maxBytes).Interrupted?
  {
    hide Content, StopAt;
    var n := StopAt(items, maxBytes);
    StopMeaning(items, maxBytes);
    assert forall k | 0 <= k < n :: items[..n][k] == items[k];
    if n < m {
      assert items[..m][n] == items[n];
      LongerPrefixesHoldMore(items, n + 1, m);
    }
  }

  /** What refuses a body is whichever comes first. */
  lemma RefusalsHaveTheirCause(items: seq<Item>, maxBytes: nat)
    ensures Reading(items, maxBytes).TooLarge? <==> Overflows(items, maxBytes)
    ensures Reading(items, maxBytes).Interrupted? <==> BreaksOff(items, maxBytes)
  {
    hide Content, StopAt;
    var n := StopAt(items, maxBytes);
    StopMeaning(items, maxBytes);
    forall m | 0 <= m <= |items| && Broken !in items[..m] && |Content(items[..m])| > maxBytes
      ensures Reading(items, maxBytes).TooLarge?
    {
      OverflowStops(items, maxBytes, m);
    }
    forall m | 0 <= m < |items| && items[m] == Broken && Broken !in items[..m] && |Content(items[..m])| <= maxBytes
      ensures Reading(items, maxBytes).Interrupted?
    {
      BreakStops(items, maxBytes, m);
    }
    if Reading(items, maxBytes).TooLarge? { assert items[..n + 1] == items[..n] + [items[n]]; }
  }

  // ---------- the loops ----------

  function Concat(chunks: seq<seq<Byte>>): seq<Byte> {
    if chunks == [] then [] else Concat(chunks[..|chunks| - 1]) + chunks[|chunks| - 1]
  }

  lemma {:induction false} ConcatPrefix(chunks: seq<seq<Byte>>, c: nat)
    requires c < |chunks|
    ensures Concat(chunks[..c + 1]) == Concat(chunks[..c]) + chunks[c]
    ensures |Concat(chunks[..c + 1])| <= |Concat(chunks)|
    decreases |chunks|
  {
    assert chunks[..c + 1][..c] == chunks[..c];
    if c + 1 < |chunks| {
      var n := |chunks| - 1;
      ConcatPrefix(chunks[..n], c);
      assert chunks[..n][..c + 1] == chunks[..c + 1] && chunks[..n][..c] == chunks[..c];
    } else {
      assert chunks[..c + 1] == chunks;
    }
  }

  /** The chunks copied into one array, each at the offset where the one before it ends. */
  method Assemble(chunks: seq<seq<Byte>>, totalBytes: nat) returns (bytes: array<Byte>)
    requires totalBytes == |Concat(chunks)|
    ensures fresh(bytes) && bytes[..] == Concat(chunks)
  {
    bytes := new Byte[totalBytes];
    var offset := 0;
    for c := 0 to |chunks|
      invariant 0 <= offset <= totalBytes && bytes[..offset] == Concat(chunks[..c])
    {
      ConcatPrefix(chunks, c);
      ghost var done := bytes[..offset];
      var chunk := chunks[c];
      forall i | 0 <= i < |chunk| { bytes[offset + i] := chunk[i]; }
      assert bytes[..offset + |chunk|] == done + chunk;
      offset := offset + |chunk|;
    }
    assert chunks[..|chunks|] == chunks;
    assert bytes[..offset] == bytes[..];
  }

  /** The reading loop of both readers. */
  method ReadChunks(items: seq<Item>, maxBytes: nat) returns (result: ReadResult)
    ensures result == Reading(items, maxBytes)
  {
    var chunks: seq<seq<Byte>> := [];
    var totalBytes := 0;
    StopMeaning(items, maxBytes);
    for n := 0 to |items|
      invariant n <= StopAt(items, maxBytes)
      invariant Concat(chunks) == Content(items[..n]) && totalBytes == |Concat(chunks)|
    {
      OneMoreItem(items, n, maxBytes);
      if items[n].Broken? { return Interrupted; }
      if items[n].Chunk? {
        totalBytes := totalBytes + |items[n].bytes|;
        if totalBytes > maxBytes { return TooLarge; }
        ghost var before := chunks;
        chunks := chunks + [items[n].bytes];
        assert chunks[..|chunks| - 1] == before;
      }
    }
    assert items[..|items|] == items;
    var bytes := Assemble(chunks, totalBytes);
    result := Assembled(bytes[..]);
  }

  lemma OneMoreItem(items: seq<Item>, n: nat, maxBytes: nat)
    requires n < |items| && n <= StopAt(items, maxBytes)
    ensures Content(items[..n + 1]) == Content(items[..n]) + if items[n].Chunk? then items[n].bytes else []
    ensures n == StopAt(items, maxBytes) <==> items[n].Broken? || |Content(items[..n + 1])| > maxBytes
  {
    StopMeaning(items, maxBytes);
    assert items[..n + 1][..n] == items[..n];
    var stop := StopAt(items, maxBytes);
    if n < stop {
      assert items[..stop][n] == items[n];
      ContentGrows(items[..stop], n + 1);
      assert items[..stop][..n + 1] == items[..n + 1];
    }
  }
}
