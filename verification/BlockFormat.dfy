/**
 The bytes of a block: prefix-compressed entries, restart points, and how one entry is decoded.
 Offsets and lengths are 32-bit words.
*/
module BlockFormat {
  import opened Coding

  datatype Entry = Entry(key: Bytes, value: Bytes)

  // ----- The order of keys -----

  // StringPiece::compare < 0: lexicographic order of unsigned bytes
  predicate Less(a: Bytes, b: Bytes) {
    b != [] && (a == [] || a[0] < b[0] || (a[0] == b[0] && Less(a[1..], b[1..])))
  }

  lemma {:induction false} LessTransitive(a: Bytes, b: Bytes, c: Bytes)
    requires Less(a, b) && Less(b, c)
    ensures Less(a, c)
  {
    if a != [] && a[0] == b[0] == c[0] { LessTransitive(a[1..], b[1..], c[1..]); }
  }

  // After n equal bytes, a ends or has the smaller byte.
  ghost predicate SmallerAt(a: Bytes, b: Bytes, n: nat) {
    && n <= |a| && n < |b| && a[..n] == b[..n]
    && (n < |a| ==> a[n] < b[n])
  }

  // The order of StringPiece::compare: the first byte that differs decides, and a prefix comes first.
  lemma {:induction false} LessIs(a: Bytes, b: Bytes)
    ensures Less(a, b) <==> exists n: nat :: SmallerAt(a, b, n)
  {
    if a == [] || b == [] || a[0] != b[0] {
      if b != [] && (a == [] || a[0] < b[0]) { assert SmallerAt(a, b, 0); }
      if n: nat :| SmallerAt(a, b, n) && n > 0 { SameStart(a, b, n); }
    } else {
      LessIs(a[1..], b[1..]);
      if n: nat :| SmallerAt(a[1..], b[1..], n) { SmallerBehind(a, b, n + 1); }
      if n: nat :| SmallerAt(a, b, n) { SmallerBehind(a, b, n); }
    }
  }

  lemma SameStart(a: Bytes, b: Bytes, n: nat)
    requires SmallerAt(a, b, n) && n > 0
    ensures a[0] == b[0]
  {
    assert a[..n][0] == b[..n][0];
  }

  lemma SmallerBehind(a: Bytes, b: Bytes, n: nat)
    requires a != [] && b != [] && a[0] == b[0]
    ensures n > 0 ==> (SmallerAt(a, b, n) <==> SmallerAt(a[1..], b[1..], n - 1))
    ensures !SmallerAt(a, b, 0)
  {
    if n > 0 && n <= |a| && n <= |b| {
      assert a[..n] == [a[0]] + a[1..][..n - 1] && b[..n] == [b[0]] + b[1..][..n - 1];
    }
  }

  // Of two keys exactly one is less than the other, or they are equal.
  lemma {:induction false} LessIsTotal(a: Bytes, b: Bytes)
    ensures a == b ==> !Less(a, b) && !Less(b, a)
    ensures a != b ==> (Less(a, b) <==> !Less(b, a))
  {
    if a != [] && b != [] {
      LessIsTotal(a[1..], b[1..]);
      assert a == [a[0]] + a[1..] && b == [b[0]] + b[1..];
    }
  }

  ghost predicate Increasing(es: seq<Entry>) {
    forall i | 0 < i < |es| :: Less(es[i - 1].key, es[i].key)
  }

  lemma {:induction false} IncreasingPairs(es: seq<Entry>, i: nat, j: nat)
    requires Increasing(es) && i < j < |es|
    ensures Less(es[i].key, es[j].key)
    decreases j
  {
    if i < j - 1 {
      IncreasingPairs(es, i, j - 1);
      LessTransitive(es[i].key, es[j - 1].key, es[j].key);
    }
  }

  // ----- Writing -----

  // The length of the longest common prefix.
  function SharedLen(a: Bytes, b: Bytes): (n: nat)
    ensures n <= |a| && n <= |b| && a[..n] == b[..n]
    ensures n < |a| && n < |b| ==> a[n] != b[n]
  {
    if a == [] || b == [] || a[0] != b[0] then 0 else
      var n := SharedLen(a[1..], b[1..]);
      assert a[..n + 1] == [a[0]] + a[1..][..n] && b[..n + 1] == [b[0]] + b[1..][..n];
      n + 1
  }

  // The cut of a 64-bit size to a 32-bit argument.
  function Cut32(x: nat): (r: nat)
    ensures r < TWO32
  {
    x % TWO32
  }

  function EncodeHeader(shared: nat, nonShared: nat, valueLen: nat): Bytes {
    EncodeVarint32(Cut32(shared)) + EncodeVarint32(Cut32(nonShared)) + EncodeVarint32(Cut32(valueLen))
  }

  function EncodeEntry(shared: nat, e: Entry): Bytes
    requires shared <= |e.key|
  {
    EncodeHeader(shared, |e.key| - shared, |e.value|) + e.key[shared..] + e.value
  }

  // What a builder holds: the bytes so far, the restart points, and how many entries the current
  // restart block has.
  datatype Builder = Builder(buffer: Bytes, restarts: seq<nat>, counter: nat, lastKey: Bytes)

  const EMPTY_BUILDER: Builder := Builder([], [0], 0, [])

  function AddEntry(b: Builder, interval: nat, e: Entry): Builder {
    if b.counter < interval then
      var shared := SharedLen(b.lastKey, e.key);
      Builder(b.buffer + EncodeEntry(shared, e), b.restarts, b.counter + 1, e.key)
    else
      Builder(b.buffer + EncodeEntry(0, e), b.restarts + [Cut32(|b.buffer|)], 1, e.key)
  }

  function Build(interval: nat, es: seq<Entry>): Builder {
    if es == [] then EMPTY_BUILDER
    else AddEntry(Build(interval, es[..|es| - 1]), interval, es[|es| - 1])
  }

  function FixedAll(words: seq<nat>): (r: Bytes)
    ensures |r| == 4 * |words|
  {
    if words == [] then []
    else FixedAll(words[..|words| - 1]) + EncodeFixed32(Cut32(words[|words| - 1]))
  }

  function FinishBytes(b: Builder): Bytes {
    b.buffer + FixedAll(b.restarts) + EncodeFixed32(Cut32(|b.restarts|))
  }

  lemma CutOfZero()
    ensures Cut32(0) == 0
  {
  }

  lemma Times(j: nat, r: nat, interval: nat)
    requires j <= r
    ensures j * interval <= r * interval && (r + 1) * interval == r * interval + interval && 0 * interval == 0
  {
  }

  // Where entry j * interval begins.
  ghost function BlockStart(interval: nat, es: seq<Entry>, j: nat): nat {
    if j * interval <= |es| then |Build(interval, es[..j * interval]).buffer| else 0
  }

  ghost predicate Spaced(interval: nat, es: seq<Entry>, b: Builder) {
    && |b.restarts| >= 1 && b.counter <= interval && (b.counter == 0 <==> es == [])
    && |es| == (|b.restarts| - 1) * interval + b.counter
    && forall j: nat | j < |b.restarts| :: b.restarts[j] == Cut32(BlockStart(interval, es, j))
  }

  lemma StartStays(interval: nat, es: seq<Entry>, e: Entry, j: nat)
    requires j * interval <= |es|
    ensures BlockStart(interval, es + [e], j) == BlockStart(interval, es, j)
    ensures j * interval == |es| ==> BlockStart(interval, es, j) == |Build(interval, es).buffer|
  {
    hide Build;
    assert (es + [e])[..j * interval] == es[..j * interval];
    assert es[..|es|] == es;
  }

  lemma SpacedNext(interval: nat, es: seq<Entry>, b: Builder, e: Entry)
    requires interval >= 1 && Spaced(interval, es, b) && b == Build(interval, es)
    ensures Spaced(interval, es + [e], AddEntry(b, interval, e))
  {
    hide EncodeEntry, SharedLen, Cut32, BlockStart, Build;
    var b1, r := AddEntry(b, interval, e), |b.restarts| - 1;
    Times(r, r, interval);
    forall j: nat | j < |b1.restarts|
      ensures b1.restarts[j] == Cut32(BlockStart(interval, es + [e], j))
    {
      if j <= r { Times(j, r, interval); }
      StartStays(interval, es, e, j);
    }
  }

  // Restart point j is where entry j * interval begins, and every restart block but the last one has
  // exactly `interval` entries.
  lemma {:induction false} RestartSpacing(interval: nat, es: seq<Entry>)
    requires interval >= 1
    ensures Spaced(interval, es, Build(interval, es))
  {
    hide AddEntry;
    if es == [] {
      CutOfZero();
      Times(0, 0, interval);
    } else {
      var init, e := es[..|es| - 1], es[|es| - 1];
      RestartSpacing(interval, init);
      SpacedNext(interval, init, Build(interval, init), e);
      assert init + [e] == es;
    }
  }

  // ----- Reading one entry -----

  datatype Decoded = Null | Fields(shared: nat, nonShared: nat, valueLen: nat, p: nat)

  // Three varints.
  function DecodeHeader(data: Bytes, p: nat, limit: nat): (r: Decoded)
    requires limit <= |data|
    ensures r.Fields? ==> p < r.p <= limit && r.shared < TWO32 && r.nonShared < TWO32 && r.valueLen < TWO32
  {
    var a := ReadVarint32(data, p, limit);
    if a.Bad? then Null else
      var b := ReadVarint32(data, a.next, limit);
      if b.Bad? then Null else
        var c := ReadVarint32(data, b.next, limit);
        if c.Bad? then Null else Fields(a.value, b.value, c.value, c.next)
  }

  // The header must fit, and the key bytes and the value after it; the sum of the two lengths is a
  // 32-bit word.
  function DecodeEntry(data: Bytes, p: nat, limit: nat): (r: Decoded)
    requires limit <= |data|
    ensures r.Fields? ==> p < r.p <= limit && r.shared < TWO32 && r.nonShared < TWO32 && r.valueLen < TWO32
  {
    if limit < p + 3 then Null else
      var h := DecodeHeader(data, p, limit);
      if h.Null? || limit - h.p < Cut32(h.nonShared + h.valueLen) then Null else h
  }

  // The fast path for three one-byte varints reads the same header.
  lemma FastPath(data: Bytes, p: nat, limit: nat)
    requires p + 3 <= limit <= |data| && data[p] < 128 && data[p + 1] < 128 && data[p + 2] < 128
    ensures DecodeHeader(data, p, limit) == Fields(data[p], data[p + 1], data[p + 2], p + 3)
  {
    OneByteReads(data, p, limit);
    OneByteReads(data, p + 1, limit);
    OneByteReads(data, p + 2, limit);
  }

  lemma OneByteReads(data: Bytes, p: nat, limit: nat)
    requires p < limit <= |data| && data[p] < 128
    ensures ReadVarint32(data, p, limit) == Got(data[p], p + 1)
  {
    assert Varint(data[p]) == [data[p]] && data[p..p + 1] == [data[p]];
    Varint32RoundTrip(data, p, limit, data[p]);
  }

  // An entry is accepted just when its key bytes and its value end before the limit, exactly unless
  // the sum of the two lengths in its header wraps around to something that does fit.
  lemma StaysInside(data: Bytes, p: nat, limit: nat)
    requires limit <= |data| < TWO32 && DecodeHeader(data, p, limit).Fields?
    ensures var h := DecodeHeader(data, p, limit);
      var n := h.nonShared + h.valueLen;
      (DecodeEntry(data, p, limit).Fields? <==> h.p + n <= limit) <==> !(TWO32 <= n <= TWO32 + limit - h.p)
  {
    var h := DecodeHeader(data, p, limit);
    var n := h.nonShared + h.valueLen;
    if n >= TWO32 { Wraps(n); }
  }

  lemma Wraps(n: nat)
    requires TWO32 <= n < 2 * TWO32
    ensures Cut32(n) == n - TWO32
  {
  }

  // ----- Decoding inverts encoding -----

  // Three pieces that stand next to each other.
  lemma Parts(data: Bytes, p: nat, a: Bytes, b: Bytes, c: Bytes)
    requires p + |a + b + c| <= |data| && data[p..p + |a + b + c|] == a + b + c
    ensures data[p..p + |a|] == a
    ensures data[p + |a|..p + |a| + |b|] == b
    ensures data[p + |a| + |b|..p + |a + b + c|] == c
  {
    var s := data[p..p + |a + b + c|];
    assert forall i | 0 <= i < |s| :: s[i] == data[p + i];
    assert forall i | 0 <= i < |a| :: s[i] == a[i];
    forall i | 0 <= i < |b| ensures data[p + |a| + i] == b[i] { assert s[|a| + i] == b[i]; }
    forall i | 0 <= i < |c| ensures data[p + |a| + |b| + i] == c[i] { assert s[|a| + |b| + i] == c[i]; }
  }

  lemma HeaderDecodes(data: Bytes, p: nat, limit: nat, a: nat, b: nat, c: nat)
    requires a < TWO32 && b < TWO32 && c < TWO32
    requires p + |EncodeHeader(a, b, c)| <= limit <= |data|
    requires data[p..p + |EncodeHeader(a, b, c)|] == EncodeHeader(a, b, c)
    ensures DecodeHeader(data, p, limit) == Fields(a, b, c, p + |EncodeHeader(a, b, c)|)
    ensures |EncodeHeader(a, b, c)| >= 3
  {
    hide ReadVarint32, EncodeVarint32, Varint;
    UnrolledVarint(a);
    UnrolledVarint(b);
    UnrolledVarint(c);
    var va, vb, vc, h := Varint(a), Varint(b), Varint(c), EncodeHeader(a, b, c);
    assert h == va + vb + vc;
    var q, r := p + |va|, p + |va| + |vb|;
    Parts(data, p, va, vb, vc);
    Varint32RoundTrip(data, p, limit, a);
    Varint32RoundTrip(data, q, limit, b);
    Varint32RoundTrip(data, r, limit, c);
  }

  // An entry whose two lengths add up to 2^32 passes, although its key ends past the limit.
  lemma LengthsWrap()
    ensures var data := EncodeHeader(0, TWO32 - 1, 1);
      var d := DecodeEntry(data, 0, |data|);
      d.Fields? && d.p + d.nonShared > |data|
  {
    hide DecodeHeader, EncodeHeader;
    var data := EncodeHeader(0, TWO32 - 1, 1);
    assert data[0..0 + |data|] == data;
    HeaderDecodes(data, 0, |data|, 0, TWO32 - 1, 1);
  }

  // Entry e stands at data[o..o2], sharing the first bytes of its key with prev.
  ghost predicate EntryBytes(data: Bytes, o: nat, o2: nat, shared: nat, prev: Bytes, e: Entry) {
    && o <= o2 <= |data|
    && shared <= |prev| && shared <= |e.key| && prev[..shared] == e.key[..shared]
    && data[o..o2] == EncodeEntry(shared, e)
  }

  lemma EntryDecodes(data: Bytes, limit: nat, o: nat, o2: nat, shared: nat, prev: Bytes, e: Entry)
    requires EntryBytes(data, o, o2, shared, prev, e) && o2 <= limit <= |data| < TWO32 && |e.key| < TWO32
    ensures var d := DecodeEntry(data, o, limit);
      && d == Fields(shared, |e.key| - shared, |e.value|, o2 - |e.value| - (|e.key| - shared))
      && prev[..shared] + data[d.p..d.p + d.nonShared] == e.key
      && data[d.p + d.nonShared..o2] == e.value
    ensures o < o2
  {
    hide DecodeHeader, EncodeHeader;
    var ns, vl := |e.key| - shared, |e.value|;
    var h, delta := EncodeHeader(shared, ns, vl), e.key[shared..];
    assert data[o..o2] == h + delta + e.value && o2 == o + |h + delta + e.value|;
    Parts(data, o, h, delta, e.value);
    HeaderDecodes(data, o, limit, shared, ns, vl);
    assert e.key == e.key[..shared] + delta;
  }

  // ----- The layout of a block -----

  ghost function KeyBefore(es: seq<Entry>, i: nat): Bytes
    requires i <= |es|
  {
    if i == 0 then [] else es[i - 1].key
  }

  // Where every entry starts, and how much it shares with the one before.
  datatype Layout = Layout(offsets: seq<nat>, shares: seq<nat>, restarts: seq<nat>)

  ghost predicate EntryLaid(data: Bytes, es: seq<Entry>, l: Layout, i: nat)
    requires i < |es| == |l.shares| && |l.offsets| == |es| + 1
  {
    && EntryBytes(data, l.offsets[i], l.offsets[i + 1], l.shares[i], KeyBefore(es, i), es[i])
    && |es[i].key| <= l.offsets[i + 1]
  }

  // The entries stand one after the other in the first `size` bytes.
  ghost predicate Laid(data: Bytes, size: nat, es: seq<Entry>, l: Layout) {
    && |l.offsets| == |es| + 1 && |l.shares| == |es|
    && l.offsets[0] == 0 && l.offsets[|es|] == size <= |data|
    && (forall i | 0 <= i < |es| :: EntryLaid(data, es, l, i))
    && (forall i | 0 <= i <= |es| :: l.offsets[i] <= size)
  }

  // Restart point j is where entry number l.restarts[j] starts, and that entry shares nothing.
  ghost predicate RestartAt(es: seq<Entry>, l: Layout, j: nat, offset: nat)
    requires j < |l.restarts| && |l.offsets| == |es| + 1 && |l.shares| == |es|
  {
    var i := l.restarts[j];
    i <= |es| && (j > 0 ==> i < |es|) && (i < |es| ==> l.shares[i] == 0) && offset == l.offsets[i]
  }

  ghost predicate RestartsLaid(es: seq<Entry>, l: Layout, points: seq<nat>) {
    && |l.offsets| == |es| + 1 && |l.shares| == |es|
    && |points| == |l.restarts| > 0 && l.restarts[0] == 0
    && forall j | 0 <= j < |points| :: RestartAt(es, l, j, points[j])
  }

  // A longer buffer, and one more entry at its end.
  lemma LaidAppend(data: Bytes, es: seq<Entry>, l: Layout, more: Bytes, e: Entry, shared: nat)
    requires Laid(data, |data|, es, l)
    requires shared <= |e.key| && shared <= |KeyBefore(es, |es|)| && KeyBefore(es, |es|)[..shared] == e.key[..shared]
    requires more == EncodeEntry(shared, e)
    ensures var l' := Layout(l.offsets + [|data| + |more|], l.shares + [shared], l.restarts);
      Laid(data + more, |data| + |more|, es + [e], l')
  {
    hide EncodeEntry;
    var data', es' := data + more, es + [e];
    var l' := Layout(l.offsets + [|data'|], l.shares + [shared], l.restarts);
    forall i | 0 <= i < |es'| ensures EntryLaid(data', es', l', i) {
      assert KeyBefore(es', i) == KeyBefore(es, i);
      if i < |es| {
        assert EntryLaid(data, es, l, i);
        assert data'[l.offsets[i]..l.offsets[i + 1]] == data[l.offsets[i]..l.offsets[i + 1]];
      } else {
        assert data'[|data|..|data'|] == more;
        KeyFits(data, es, l, e, shared);
      }
    }
  }

  lemma KeyFits(data: Bytes, es: seq<Entry>, l: Layout, e: Entry, shared: nat)
    requires Laid(data, |data|, es, l) && shared <= |e.key| && shared <= |KeyBefore(es, |es|)|
    ensures |e.key| <= |data| + |EncodeEntry(shared, e)|
  {
    if |es| > 0 {
      assert EntryLaid(data, es, l, |es| - 1);
    }
  }

  lemma RestartsAppend(es: seq<Entry>, l: Layout, points: seq<nat>, e: Entry, offset: nat, shared: nat)
    requires RestartsLaid(es, l, points) && (es == [] ==> shared == 0)
    ensures RestartsLaid(es + [e], Layout(l.offsets + [offset], l.shares + [shared], l.restarts), points)
    ensures shared == 0 ==> RestartsLaid(es + [e],
      Layout(l.offsets + [offset], l.shares + [shared], l.restarts + [|es|]), points + [l.offsets[|es|]])
  {
    var l1 := Layout(l.offsets + [offset], l.shares + [shared], l.restarts);
    forall j | 0 <= j < |points| ensures RestartAt(es + [e], l1, j, points[j]) {
      assert RestartAt(es, l, j, points[j]);
    }
    if shared == 0 {
      var l2 := l1.(restarts := l.restarts + [|es|]);
      var points2 := points + [l.offsets[|es|]];
      forall j | 0 <= j < |points2| ensures RestartAt(es + [e], l2, j, points2[j]) {
        if j < |points| { assert RestartAt(es, l, j, points[j]); }
      }
    }
  }

  ghost predicate BuilderLaid(b: Builder, es: seq<Entry>, l: Layout) {
    && Laid(b.buffer, |b.buffer|, es, l)
    && RestartsLaid(es, l, b.restarts)
    && b.lastKey == KeyBefore(es, |es|)
  }

  // A builder lays out what was added to it.
  lemma {:induction false} BuildIsLaid(interval: nat, es: seq<Entry>) returns (l: Layout)
    requires |Build(interval, es).buffer| < TWO32
    ensures BuilderLaid(Build(interval, es), es, l)
  {
    hide EncodeEntry;
    if es == [] {
      l := Layout([0], [], [0]);
      assert RestartAt(es, l, 0, 0);
    } else {
      var n := |es| - 1;
      var init, e := es[..n], es[n];
      var b := Build(interval, init);
      var l0 := BuildIsLaid(interval, init);
      assert es == init + [e];
      l := AddIsLaid(b, interval, init, l0, e);
    }
  }

  lemma AddIsLaid(b: Builder, interval: nat, es: seq<Entry>, l: Layout, e: Entry) returns (l': Layout)
    requires BuilderLaid(b, es, l) && |b.buffer| < TWO32
    ensures BuilderLaid(AddEntry(b, interval, e), es + [e], l')
  {
    hide EncodeEntry, SharedLen, Laid, RestartsLaid;
    var shared := if b.counter < interval then SharedLen(b.lastKey, e.key) else 0;
    var more := EncodeEntry(shared, e);
    LaidAppend(b.buffer, es, l, more, e, shared);
    assert es == [] ==> shared == 0;
    LaidEnds(b.buffer, es, l);
    RestartsAppend(es, l, b.restarts, e, |b.buffer| + |more|, shared);
    l' := Layout(l.offsets + [|b.buffer| + |more|], l.shares + [shared], if b.counter < interval then l.restarts
      else l.restarts + [|es|]);
    assert KeyBefore(es + [e], |es| + 1) == e.key;
    LaidRestartsFree(b.buffer + more, |b.buffer| + |more|, es + [e], l'.(restarts := l.restarts), l'.restarts);
  }

  lemma LaidEnds(data: Bytes, es: seq<Entry>, l: Layout)
    requires Laid(data, |data|, es, l)
    ensures |l.offsets| == |es| + 1 && l.offsets[|es|] == |data|
  {
  }

  lemma LaidRestartsFree(data: Bytes, size: nat, es: seq<Entry>, l: Layout, restarts: seq<nat>)
    requires Laid(data, size, es, l)
    ensures Laid(data, size, es, l.(restarts := restarts))
  {
    forall i | 0 <= i < |es|
      ensures EntryLaid(data, es, l.(restarts := restarts), i) { assert EntryLaid(data, es, l, i); }
  }

  // ----- The finished block -----

  // Block::Block and NewIterator: where the restart points start and how many there are.
  datatype Opened = BadContents | NoEntries | Opened(limit: nat, numRestarts: nat)

  function Open(data: Bytes): (r: Opened)
    ensures r.Opened? ==> r.numRestarts > 0 && r.limit + 4 * r.numRestarts + 4 == |data|
  {
    if |data| < 4 then BadContents else
      var n := DecodeFixed32(data, |data| - 4);
      if n > (|data| - 4) / 4 then BadContents
      else if n == 0 then NoEntries
      else Opened(|data| - (1 + n) * 4, n)
  }

  // Contents open as a block exactly when the number at their end is not zero and that many restart
  // points fit before it.
  lemma OpenIs(data: Bytes)
    ensures Open(data).Opened? <==>
      |data| >= 4 && var n := DecodeFixed32(data, |data| - 4); n >= 1 && 4 * n + 4 <= |data|
    ensures Open(data).NoEntries? <==> |data| >= 4 && DecodeFixed32(data, |data| - 4) == 0
  {
    hide DecodeFixed32;
  }

  ghost predicate IsBlock(data: Bytes, limit: nat, numRestarts: nat, es: seq<Entry>, l: Layout) {
    && limit + 4 * numRestarts + 4 <= |data| < TWO32
    && Laid(data, limit, es, l)
    && |l.restarts| == numRestarts > 0 && l.restarts[0] == 0
    && forall j | 0 <= j < numRestarts :: RestartAt(es, l, j, DecodeFixed32(data, limit + 4 * j))
  }

  lemma {:induction false} FixedAllAt(words: seq<nat>, j: nat)
    requires j < |words|
    ensures FixedAll(words)[4 * j..4 * j + 4] == EncodeFixed32(Cut32(words[j]))
  {
    hide EncodeFixed32;
    var n := |words| - 1;
    if j < n {
      FixedAllAt(words[..n], j);
      assert FixedAll(words)[4 * j..4 * j + 4] == FixedAll(words[..n])[4 * j..4 * j + 4];
    }
  }

  lemma RestartReads(b: Builder, j: nat)
    requires j < |b.restarts| && b.restarts[j] < TWO32
    ensures |FinishBytes(b)| == |b.buffer| + 4 * |b.restarts| + 4
    ensures DecodeFixed32(FinishBytes(b), |b.buffer| + 4 * j) == b.restarts[j]
  {
    hide EncodeFixed32, DecodeFixed32, FixedAll;
    var data, words, o := FinishBytes(b), FixedAll(b.restarts), |b.buffer| + 4 * j;
    FixedAllAt(b.restarts, j);
    assert data[o..o + 4] == words[4 * j..4 * j + 4];
    FixedRoundTrip(data, o, b.restarts[j]);
  }

  lemma CountReads(b: Builder)
    requires |FinishBytes(b)| < TWO32
    ensures |FinishBytes(b)| == |b.buffer| + 4 * |b.restarts| + 4
    ensures DecodeFixed32(FinishBytes(b), |FinishBytes(b)| - 4) == |b.restarts|
  {
    hide EncodeFixed32, DecodeFixed32, FixedAll;
    var data := FinishBytes(b);
    assert data[|data| - 4..|data| - 4 + 4] == EncodeFixed32(Cut32(|b.restarts|));
    FixedRoundTrip(data, |data| - 4, |b.restarts|);
  }

  lemma LaidLonger(data: Bytes, more: Bytes, es: seq<Entry>, l: Layout)
    requires Laid(data, |data|, es, l)
    ensures Laid(data + more, |data|, es, l)
  {
    hide EncodeEntry;
    forall i | 0 <= i < |es| ensures EntryLaid(data + more, es, l, i) {
      assert EntryLaid(data, es, l, i);
      assert (data + more)[l.offsets[i]..l.offsets[i + 1]] == data[l.offsets[i]..l.offsets[i + 1]];
    }
  }

  // What Finish returns opens as a block that holds exactly what was added.
  lemma FinishedIsBlock(interval: nat, es: seq<Entry>) returns (l: Layout)
    requires |FinishBytes(Build(interval, es))| < TWO32
    ensures var b := Build(interval, es);
      && Open(FinishBytes(b)) == Opened(|b.buffer|, |b.restarts|)
      && IsBlock(FinishBytes(b), |b.buffer|, |b.restarts|, es, l)
  {
    hide Build, Laid, FixedAll;
    var b := Build(interval, es);
    var data := FinishBytes(b);
    CountReads(b);
    l := BuildIsLaid(interval, es);
    var tail := FixedAll(b.restarts) + EncodeFixed32(Cut32(|b.restarts|));
    assert data == b.buffer + tail;
    LaidLonger(b.buffer, tail, es, l);
    forall j | 0 <= j < |b.restarts| ensures RestartAt(es, l, j, DecodeFixed32(data, |b.buffer| + 4 * j)) {
      assert RestartAt(es, l, j, b.restarts[j]);
      OffsetsFit(b.buffer, es, l, l.restarts[j]);
      RestartReads(b, j);
    }
  }

  lemma OffsetsFit(data: Bytes, es: seq<Entry>, l: Layout, i: nat)
    requires Laid(data, |data|, es, l) && i <= |es|
    ensures |l.offsets| == |es| + 1 && l.offsets[i] <= |data|
  {
  }

  // ----- The layout -----

  // A block of two entries, byte by byte: for each entry the shared length, the unshared length, the
  // length of the value, the rest of the key, and the value; then the restart points and their number.
  lemma BlockBytes()
    ensures FinishBytes(Build(16, [Entry([97], [120]), Entry([97, 98], [121])])) ==
      [0, 1, 1, 97, 120, 1, 1, 1, 98, 121, 0, 0, 0, 0, 1, 0, 0, 0]
  {
    var a, b := Entry([97], [120]), Entry([97, 98], [121]);
    hide Build, AddEntry, FixedAll;
    BuildOne(a);
    BuildTwo(a, b);
    FixedOne();
  }

  lemma BuildOne(a: Entry)
    requires a == Entry([97], [120])
    ensures Build(16, [a]) == Builder([0, 1, 1, 97, 120], [0], 1, [97])
  {
    hide Cut32;
    assert [a][..0] == [];
    assert Build(16, []) == EMPTY_BUILDER;
    assert SharedLen([], [97]) == 0;
    HeaderOf(0, 1, 1);
    assert a.key[0..] == a.key;
  }

  lemma BuildTwo(a: Entry, b: Entry)
    requires a == Entry([97], [120]) && b == Entry([97, 98], [121])
    ensures Build(16, [a, b]) == Builder([0, 1, 1, 97, 120, 1, 1, 1, 98, 121], [0], 2, [97, 98])
  {
    hide Cut32, EncodeHeader;
    assert [a, b][..1] == [a];
    BuildOne(a);
    SharedOne();
    HeaderOf(1, 1, 1);
    assert b.key[1..] == [98];
  }

  lemma SharedOne()
    ensures SharedLen([97], [97, 98]) == 1
  {
    assert SharedLen([], [98]) == 0;
    assert [97][1..] == [] && [97, 98][1..] == [98];
  }

  lemma HeaderOf(a: nat, b: nat, c: nat)
    requires a < 128 && b < 128 && c < 128
    ensures EncodeHeader(a, b, c) == [a, b, c]
  {
  }

  lemma FixedOne()
    ensures FixedAll([0]) == [0, 0, 0, 0] && EncodeFixed32(Cut32(1)) == [1, 0, 0, 0]
  {
    assert [0][..0] == [];
    assert FixedAll([]) == [];
  }
}
