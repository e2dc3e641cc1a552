/**
 The block builder and the block iterator.  The iterator works on any contents that open as a
 block; what it returns is stated for blocks with a known layout.
*/
module Block {
  import opened Coding
  import opened BlockFormat

  class BlockBuilder {
    const interval: nat
    var buffer: Bytes
    var restarts: seq<nat>
    var counter: nat
    var lastKey: Bytes
    var finished: bool
    ghost var entries: seq<Entry>

    function State(): Builder
      reads this
    {
      Builder(buffer, restarts, counter, lastKey)
    }

    ghost predicate Valid()
      reads this
    {
      && interval >= 1 && counter <= interval
      && State() == Build(interval, entries)
      && Increasing(entries)
      && lastKey == KeyBefore(entries, |entries|)
      && (entries == [] <==> buffer == [])
    }

    constructor (interval: nat)
      requires interval >= 1
      ensures Valid() && entries == [] && !finished && this.interval == interval
    {
      this.interval := interval;
      buffer, restarts, counter, lastKey, finished := [], [0], 0, [], false;
      entries := [];
    }

    method Reset()
      requires interval >= 1
      modifies this
      ensures Valid() && entries == [] && !finished
    {
      buffer, restarts, counter, lastKey, finished := [], [0], 0, [], false;
      entries := [];
    }

    // The prefix that key shares with the last key.
    static method Sharing(last: Bytes, key: Bytes) returns (shared: nat)
      ensures shared == SharedLen(last, key)
    {
      shared := 0;
      while shared < |last| && shared < |key| && last[shared] == key[shared]
        invariant shared <= |last| && shared <= |key|
        invariant SharedLen(last, key) == shared + SharedLen(last[shared..], key[shared..])
      {
        assert last[shared..][1..] == last[shared + 1..] && key[shared..][1..] == key[shared + 1..];
        shared := shared + 1;
      }
    }

    // Keys are added in increasing order.
    method Add(key: Bytes, value: Bytes)
      requires Valid() && !finished && (buffer == [] || Less(lastKey, key))
      modifies this
      ensures Valid() && !finished && entries == old(entries) + [Entry(key, value)]
    {
      hide EncodeHeader, Build, SharedLen, Less, Increasing, AddEntry, Cut32, KeyBefore;
      ghost var e, before := Entry(key, value), State();
      BuildAdds(interval, entries, e);
      var shared := 0;
      if counter < interval {
        shared := Sharing(lastKey, key);
      } else {
        restarts := restarts + [Cut32(|buffer|)];
        counter := 0;
      }
      var nonShared := |key| - shared;
      buffer := buffer + (EncodeHeader(shared, nonShared, |value|) + key[shared..] + value);
      lastKey := lastKey[..shared] + key[shared..];
      counter := counter + 1;
      Added(before, interval, e, shared);
      LastKeyIs(entries, e);
      entries := entries + [e];
      IncreasingAppend(old(entries), e);
    }

    // The restart points, then how many there are.
    method Finish() returns (data: Bytes)
      requires Valid() && !finished
      modifies this
      ensures finished && entries == old(entries)
      ensures data == FinishBytes(Build(interval, entries))
    {
      hide FixedAll, EncodeFixed32;
      ghost var b := State();
      NoWords();
      var i := 0;
      while i < |restarts|
        invariant i <= |restarts| && unchanged(`restarts) && unchanged(`entries)
        invariant buffer == b.buffer + FixedAll(restarts[..i])
      {
        OneMoreWord(restarts, i);
        buffer := buffer + EncodeFixed32(Cut32(restarts[i]));
        i := i + 1;
      }
      assert restarts[..i] == restarts;
      buffer := buffer + EncodeFixed32(Cut32(|restarts|));
      finished := true;
      data := buffer;
    }
  }

  lemma NoWords()
    ensures FixedAll([]) == []
  {
  }

  lemma OneMoreWord(words: seq<nat>, i: nat)
    requires i < |words|
    ensures FixedAll(words[..i + 1]) == FixedAll(words[..i]) + EncodeFixed32(Cut32(words[i]))
  {
    hide EncodeFixed32;
    assert words[..i + 1][..i] == words[..i];
  }

  lemma BuildAdds(interval: nat, es: seq<Entry>, e: Entry)
    ensures Build(interval, es + [e]) == AddEntry(Build(interval, es), interval, e)
  {
    assert (es + [e])[..|es|] == es;
  }

  lemma LastKeyIs(es: seq<Entry>, e: Entry)
    ensures KeyBefore(es + [e], |es + [e]|) == e.key
  {
  }

  lemma Added(b: Builder, interval: nat, e: Entry, shared: nat)
    requires shared == if b.counter < interval then SharedLen(b.lastKey, e.key) else 0
    ensures shared <= |e.key| && shared <= |b.lastKey|
    ensures b.lastKey[..shared] + e.key[shared..] == e.key
    ensures AddEntry(b, interval, e) == Builder(
      b.buffer + (EncodeHeader(shared, |e.key| - shared, |e.value|) + e.key[shared..] + e.value),
      if b.counter < interval then b.restarts else b.restarts + [Cut32(|b.buffer|)],
      if b.counter < interval then b.counter + 1 else 1,
      b.lastKey[..shared] + e.key[shared..])
    ensures AddEntry(b, interval, e).buffer != []
  {
    hide SharedLen, EncodeVarint32;
    assert e.key == e.key[..shared] + e.key[shared..];
    HeaderNotEmpty(shared, |e.key| - shared, |e.value|);
  }

  lemma HeaderNotEmpty(a: nat, b: nat, c: nat)
    ensures |EncodeHeader(a, b, c)| > 0
  {
  }

  lemma IncreasingAppend(es: seq<Entry>, e: Entry)
    requires Increasing(es) && (es == [] || Less(KeyBefore(es, |es|), e.key))
    ensures Increasing(es + [e])
  {
  }

  // DecodeEntry with its fast path.
  method DecodeAt(data: Bytes, p: nat, limit: nat) returns (r: Decoded)
    requires limit <= |data|
    ensures r == DecodeEntry(data, p, limit)
  {
    hide ReadVarint32, DecodeHeader;
    if limit < p + 3 {
      return Null;
    }
    var h;
    if data[p] < 128 && data[p + 1] < 128 && data[p + 2] < 128 {
      FastPath(data, p, limit);
      h := Fields(data[p], data[p + 1], data[p + 2], p + 3);
    } else {
      h := DecodeThree(data, p, limit);
      if h.Null? {
        return Null;
      }
    }
    if limit - h.p < Cut32(h.nonShared + h.valueLen) {
      return Null;
    }
    return h;
  }

  method DecodeThree(data: Bytes, p: nat, limit: nat) returns (h: Decoded)
    requires limit <= |data|
    ensures h == DecodeHeader(data, p, limit)
  {
    hide ReadVarint32;
    var a := GetVarint32(data, p, limit);
    if a.Bad? {
      return Null;
    }
    var b := GetVarint32(data, a.next, limit);
    if b.Bad? {
      return Null;
    }
    var c := GetVarint32(data, b.next, limit);
    if c.Bad? {
      return Null;
    }
    return Fields(a.value, b.value, c.value, c.next);
  }

  // The n bytes at p.  Bytes past the end of the contents are not part of the model.
  function Slice(data: Bytes, p: nat, n: nat): Bytes {
    if p + n <= |data| then data[p..p + n] else if p <= |data| then data[p..] else []
  }

  class Iter {
    const data: Bytes
    const restarts: nat
    const numRestarts: nat
    var current: nat
    var restartIndex: nat
    var key: Bytes
    var valueAt: nat // value_: its offset and its size
    var valueLen: nat
    var corrupted: bool // status_ is not ok

    // What the block is known to hold, if anything is known.
    ghost const known: bool
    ghost const entries: seq<Entry>
    ghost const layout: Layout

    ghost predicate Valid()
      reads this
    {
      && numRestarts > 0 && restarts + 4 * numRestarts + 4 <= |data| < TWO32
      && current <= restarts
      && (known ==> IsBlock(data, restarts, numRestarts, entries, layout))
      && (known ==> |layout.restarts| == numRestarts && !corrupted)
    }

    constructor (data: Bytes, restarts: nat, numRestarts: nat, ghost known: bool, ghost entries: seq<Entry>,
                 ghost layout: Layout)
      requires numRestarts > 0 && restarts + 4 * numRestarts + 4 <= |data| < TWO32
      requires known ==> IsBlock(data, restarts, numRestarts, entries, layout)
      ensures Valid() && current == restarts
      ensures this.data == data && this.restarts == restarts && this.known == known && this.entries == entries
        && this.layout == layout
    {
      this.data, this.restarts, this.numRestarts := data, restarts, numRestarts;
      this.known, this.entries, this.layout := known, entries, layout;
      current, restartIndex, key, valueAt, valueLen, corrupted := restarts, numRestarts, [], 0, 0, false;
    }

    function Value(): Bytes
      reads this
    {
      Slice(data, valueAt, valueLen)
    }

    // NextEntryOffset, a 32-bit word
    function NextOffset(): nat
      reads this
    {
      Cut32(valueAt + valueLen)
    }

    // The iterator stands on entry i.
    ghost predicate At(i: nat)
      reads this
    {
      && i < |entries| && |layout.offsets| == |entries| + 1
      && current == layout.offsets[i] < restarts
      && key == entries[i].key && Value() == entries[i].value
      && NextOffset() == layout.offsets[i + 1]
    }

    // The iterator will parse entry i next, if there is one.
    ghost predicate ReadyFor(i: nat)
      reads this
    {
      && i <= |entries| == |layout.shares| && |layout.offsets| == |entries| + 1
      && NextOffset() == layout.offsets[i]
      && (i < |entries| ==>
            layout.shares[i] <= |key| && layout.shares[i] <= |entries[i].key|
              && key[..layout.shares[i]] == entries[i].key[..layout.shares[i]])
    }

    // The offset of restart point r, or 0 when there is none.
    function Point(r: nat): nat {
      if r < numRestarts && restarts + 4 * r + 4 <= |data| then DecodeFixed32(data, restarts + 4 * r) else 0
    }

    method GetRestartPoint(index: nat) returns (offset: nat)
      requires Valid() && index < numRestarts
      ensures offset == DecodeFixed32(data, restarts + 4 * index) == Point(index)
    {
      offset := DecodeFixed32(data, restarts + 4 * index);
    }

    lemma RestartIsReady(index: nat)
      requires Valid() && known && index < numRestarts && key == [] && valueLen == 0
      requires valueAt == DecodeFixed32(data, restarts + 4 * index)
      ensures layout.restarts[index] <= |entries| && ReadyFor(layout.restarts[index])
    {
      hide DecodeFixed32;
      assert RestartAt(entries, layout, index, valueAt);
    }

    method SeekToRestartPoint(index: nat)
      requires Valid() && index < numRestarts
      modifies this
      ensures Valid() && corrupted == old(corrupted)
      ensures known ==> ReadyFor(layout.restarts[index])
    {
      hide DecodeFixed32, IsBlock;
      key := [];
      restartIndex := index;
      valueAt := GetRestartPoint(index);
      valueLen := 0;
      if known { RestartIsReady(index); }
    }

    method CorruptionError()
      requires numRestarts > 0 && restarts + 4 * numRestarts + 4 <= |data| < TWO32 && !known
      modifies this
      ensures Valid() && current == restarts && corrupted
    {
      current, restartIndex, corrupted := restarts, numRestarts, true;
      key, valueAt, valueLen := [], 0, 0;
    }

    // The next entry decodes as what it is.
    lemma EntryIsNext(i: nat)
      requires Valid() && known && ReadyFor(i) && i < |entries|
      ensures var o, o2, shared, e := layout.offsets[i], layout.offsets[i + 1], layout.shares[i], entries[i];
        var d := DecodeEntry(data, o, restarts);
        && o < o2 <= restarts
        && d.Fields? && d.shared == shared && d.nonShared == |e.key| - shared && d.valueLen == |e.value|
        && d.p + d.nonShared + d.valueLen == o2
        && key[..shared] + data[d.p..d.p + d.nonShared] == e.key
        && data[d.p + d.nonShared..o2] == e.value
    {
      hide DecodeEntry, EncodeEntry, DecodeFixed32;
      assert EntryLaid(data, entries, layout, i);
      EntryDecodes(data, restarts, layout.offsets[i], layout.offsets[i + 1], layout.shares[i], KeyBefore(entries, i),
        entries[i]);
    }

    // ... and the one after it is ready to be parsed.
    lemma AtIsReady(i: nat)
      requires Valid() && known && At(i)
      ensures ReadyFor(i + 1)
    {
      hide DecodeFixed32, EncodeEntry;
      if i + 1 < |entries| {
        assert EntryLaid(data, entries, layout, i + 1);
      }
    }

    lemma OffsetsEnd(i: nat)
      requires Valid() && known && ReadyFor(i)
      ensures i == |entries| <==> NextOffset() >= restarts
    {
      hide DecodeFixed32, DecodeEntry, EncodeEntry;
      if i < |entries| { EntryIsNext(i); }
    }

    // Parses the entry after the value; `i` is its number in a known block.
    method ParseNextKey(ghost i: nat) returns (ok: bool)
      requires Valid() && (known ==> ReadyFor(i))
      modifies this
      ensures Valid()
      ensures ok ==> current == old(NextOffset()) < NextOffset() && NextOffset() <= restarts
      ensures !ok ==> current == restarts
      ensures known ==> (ok <==> i < |entries|) && (ok ==> At(i))
      ensures var d := DecodeEntry(data, old(NextOffset()), restarts);
        && (ok <==> old(NextOffset()) < restarts && d.Fields? && d.shared <= |old(key)|)
        && (ok ==> key == old(key)[..d.shared] + Slice(data, d.p, d.nonShared))
        && (ok ==> valueAt == d.p + d.nonShared && valueLen == d.valueLen)
      ensures corrupted <==> old(corrupted) || (!ok && old(NextOffset()) < restarts)
    {
      hide DecodeFixed32, DecodeEntry, IsBlock;
      ghost var next := NextOffset();
      if known {
        OffsetsEnd(i);
        if i < |entries| { EntryIsNext(i); }
      }
      var at := NextOffset();
      if at >= restarts {
        current, restartIndex := restarts, numRestarts;
        return false;
      }
      var d := DecodeAt(data, at, restarts);
      if d.Null? || |key| < d.shared {
        CorruptionError();
        return false;
      }
      TakeEntry(d, i);
      return true;
    }

    // In a known block the decoded fields are those of the next entry.
    lemma NextFields(d: Decoded, i: nat)
      requires Valid() && known && ReadyFor(i) && i < |entries|
      requires d == DecodeEntry(data, layout.offsets[i], restarts)
      ensures d.Fields? && d.shared <= |key|
      ensures key[..d.shared] + Slice(data, d.p, d.nonShared) == entries[i].key
      ensures Slice(data, d.p + d.nonShared, d.valueLen) == entries[i].value
      ensures Cut32(d.p + d.nonShared + d.valueLen) == layout.offsets[i + 1] && layout.offsets[i] < restarts
    {
      hide DecodeFixed32, DecodeEntry, IsBlock;
      EntryIsNext(i);
    }

    // The fields of the entry that was decoded after the current one.
    method TakeEntry(d: Decoded, ghost i: nat)
      requires Valid() && (known ==> ReadyFor(i) && i < |entries|)
      requires d.Fields? && d == DecodeEntry(data, NextOffset(), restarts) && d.shared <= |key|
      modifies this
      ensures Valid() && corrupted == old(corrupted)
      ensures current == old(NextOffset()) < NextOffset() && NextOffset() <= restarts
      ensures known ==> At(i)
      ensures key == old(key)[..d.shared] + Slice(data, d.p, d.nonShared)
      ensures valueAt == d.p + d.nonShared && valueLen == d.valueLen
    {
      hide DecodeFixed32, DecodeEntry, IsBlock, Slice, Cut32;
      if known { NextFields(d, i); }
      DecodedEnds(data, NextOffset(), restarts);
      current := NextOffset();
      key := key[..d.shared] + Slice(data, d.p, d.nonShared);
      valueAt, valueLen := d.p + d.nonShared, d.valueLen;
      AdvanceRestartIndex();
    }

    // On to the last restart point before the current entry.
    method AdvanceRestartIndex()
      requires Valid()
      modifies this`restartIndex
      ensures Valid() && restartIndex >= old(restartIndex)
      ensures forall r: nat | old(restartIndex) < r <= restartIndex :: Point(r) < current
      ensures restartIndex + 1 < numRestarts ==> Point(restartIndex + 1) >= current
    {
      hide DecodeFixed32, IsBlock;
      while restartIndex + 1 < numRestarts
        invariant Valid() && restartIndex >= old(restartIndex)
        invariant forall r: nat | old(restartIndex) < r <= restartIndex :: Point(r) < current
        decreases numRestarts - restartIndex
      {
        var offset := GetRestartPoint(restartIndex + 1);
        if offset >= current {
          break;
        }
        restartIndex := restartIndex + 1;
      }
    }

    method SeekToFirst()
      requires Valid()
      modifies this
      ensures Valid()
      ensures known ==> if entries == [] then current == restarts else At(0)
    {
      hide IsBlock, DecodeFixed32;
      SeekToRestartPoint(0);
      if known { FirstRestart(); }
      var ok := ParseNextKey(0);
    }

    lemma FirstRestart()
      requires Valid() && known
      ensures layout.restarts[0] == 0
    {
    }

    method Next(ghost i: nat)
      requires Valid() && current < restarts && (known ==> At(i))
      modifies this
      ensures Valid()
      ensures known ==> if i + 1 < |entries| then At(i + 1) else current == restarts
    {
      hide IsBlock, DecodeFixed32;
      if known { AtIsReady(i); }
      var ok := ParseNextKey(i + 1);
    }

    // The first entry whose key is not less than the target, or the end.
    ghost predicate Landed(target: Bytes)
      reads this
    {
      || (exists i: nat ::
            At(i) && !Less(entries[i].key, target) && forall j | 0 <= j < i :: Less(entries[j].key, target))
      || (current == restarts && forall j | 0 <= j < |entries| :: Less(entries[j].key, target))
    }

    ghost predicate AllLess(target: Bytes, n: nat)
      reads this
    {
      n <= |entries| && forall j | 0 <= j < n :: Less(entries[j].key, target)
    }

    // The key at a restart point is stored in full.
    lemma RestartKey(index: nat)
      requires Valid() && known && 0 < index < numRestarts
      ensures var o := DecodeFixed32(data, restarts + 4 * index);
        var d := DecodeEntry(data, o, restarts);
        && layout.restarts[index] < |entries|
        && d.Fields? && d.shared == 0 && Slice(data, d.p, d.nonShared) == entries[layout.restarts[index]].key
    {
      hide DecodeFixed32, DecodeEntry, EncodeEntry;
      var i := layout.restarts[index];
      assert RestartAt(entries, layout, index, DecodeFixed32(data, restarts + 4 * index));
      assert EntryLaid(data, entries, layout, i);
      EntryDecodes(data, restarts, layout.offsets[i], layout.offsets[i + 1], layout.shares[i], KeyBefore(entries, i),
        entries[i]);
      assert KeyBefore(entries, i)[..0] == [];
    }

    lemma LessUpTo(target: Bytes, i: nat)
      requires Increasing(entries) && i < |entries| && Less(entries[i].key, target)
      ensures AllLess(target, i)
    {
      hide Less;
      forall j | 0 <= j < i ensures Less(entries[j].key, target) {
        IncreasingPairs(entries, j, i);
        LessTransitive(entries[j].key, entries[i].key, target);
      }
    }

    // The binary search: a restart point before which every key is less than the target.
    method SeekRestart(target: Bytes) returns (ok: bool, left: nat)
      requires Valid()
      modifies this
      ensures Valid() && left < numRestarts
      ensures known ==> ok && (Increasing(entries) ==> AllLess(target, layout.restarts[left]))
      ensures !ok ==> current == restarts && corrupted
    {
      hide IsBlock, DecodeFixed32, DecodeEntry, Less, Increasing;
      left := 0;
      var right := numRestarts - 1;
      if known { FirstRestart(); }
      while left < right
        invariant left <= right < numRestarts && Valid() && unchanged(this)
        invariant known && Increasing(entries) ==> AllLess(target, layout.restarts[left])
        decreases right - left
      {
        var mid := (left + right + 1) / 2;
        var offset := GetRestartPoint(mid);
        var d := DecodeAt(data, offset, restarts);
        if known { RestartKey(mid); }
        if d.Null? || d.shared != 0 {
          CorruptionError();
          return false, left;
        }
        var midKey := Slice(data, d.p, d.nonShared);
        if Less(midKey, target) {
          if known && Increasing(entries) { LessUpTo(target, layout.restarts[mid]); }
          left := mid;
        } else {
          right := mid - 1;
        }
      }
      ok := true;
    }

    // Lands on the first key that is not less than the target.
    method Seek(target: Bytes)
      requires Valid()
      modifies this
      ensures Valid()
      ensures current < restarts ==> !Less(key, target)
      ensures known && Increasing(entries) ==> Landed(target)
    {
      hide IsBlock, DecodeFixed32, DecodeEntry, Less, Increasing;
      var found, left := SeekRestart(target);
      if !found {
        return;
      }
      SeekToRestartPoint(left);
      ghost var i := if known then layout.restarts[left] else 0;
      while true
        invariant Valid()
        invariant known ==> ReadyFor(i) && (Increasing(entries) ==> AllLess(target, i))
        decreases TWO32 - NextOffset()
      {
        var ok := ParseNextKey(i);
        if !ok {
          return;
        }
        if !Less(key, target) {
          return;
        }
        if known { AtIsReady(i); }
        i := i + 1;
      }
    }
  }

  // After a decoded entry the offset has moved on, and not past the limit.
  lemma DecodedEnds(data: Bytes, p: nat, limit: nat)
    requires limit <= |data| < TWO32 && DecodeEntry(data, p, limit).Fields?
    ensures var d := DecodeEntry(data, p, limit);
      p < Cut32(d.p + d.nonShared + d.valueLen) <= limit
  {
    hide DecodeHeader;
  }

  method WriteAll(es: seq<Entry>, interval: nat) returns (data: Bytes)
    requires interval >= 1 && Increasing(es)
    ensures data == FinishBytes(Build(interval, es))
  {
    hide Build, Less, Increasing, FinishBytes;
    var builder := new BlockBuilder(interval);
    var n := 0;
    while n < |es|
      invariant n <= |es| && builder.Valid() && !builder.finished && builder.entries == es[..n]
        && builder.interval == interval
    {
      if n > 0 { Neighbours(es, n); }
      builder.Add(es[n].key, es[n].value);
      n := n + 1;
      assert es[..n] == es[..n - 1] + [es[n - 1]];
    }
    assert es[..n] == es;
    data := builder.Finish();
  }

  method ReadAll(iter: Iter) returns (out: seq<Entry>)
    requires iter.Valid() && iter.known
    modifies iter
    ensures iter.Valid() && out == iter.entries
  {
    hide IsBlock;
    iter.SeekToFirst();
    out := [];
    while iter.current < iter.restarts
      invariant iter.Valid()
      invariant |out| <= |iter.entries| && out == iter.entries[..|out|]
      invariant if |out| < |iter.entries| then iter.At(|out|) else iter.current == iter.restarts
      decreases |iter.entries| - |out|
    {
      out := out + [Entry(iter.key, iter.Value())];
      iter.Next(|out| - 1);
    }
  }

  // Adding entries, finishing the block, and reading it from the first entry to the last gives the
  // entries back, and no corruption is reported.
  method WriteAndRead(es: seq<Entry>, interval: nat) returns (out: seq<Entry>, corrupted: bool)
    requires interval >= 1 && Increasing(es) && |FinishBytes(Build(interval, es))| < TWO32
    ensures out == es && !corrupted
  {
    hide Build, IsBlock, Less, Increasing, FinishBytes;
    var data := WriteAll(es, interval);
    ghost var layout := FinishedIsBlock(interval, es);
    var block := Open(data);
    var iter := new Iter(data, block.limit, block.numRestarts, true, es, layout);
    out := ReadAll(iter);
    corrupted := iter.corrupted;
  }

  // The first entry whose key is not less than the target.
  ghost predicate FirstAtLeast(es: seq<Entry>, target: Bytes, e: Entry) {
    exists i: nat ::
      i < |es| && e == es[i] && !Less(es[i].key, target) && forall j | 0 <= j < i :: Less(es[j].key, target)
  }

  // Seek in a finished block.
  method WriteAndSeek(es: seq<Entry>, interval: nat, target: Bytes) returns (found: bool, e: Entry)
    requires interval >= 1 && Increasing(es) && |FinishBytes(Build(interval, es))| < TWO32
    ensures found <==> exists i: nat :: i < |es| && !Less(es[i].key, target)
    ensures found ==> FirstAtLeast(es, target, e)
  {
    hide Build, IsBlock, Less, Increasing, FinishBytes;
    var data := WriteAll(es, interval);
    ghost var layout := FinishedIsBlock(interval, es);
    var block := Open(data);
    var iter := new Iter(data, block.limit, block.numRestarts, true, es, layout);
    iter.Seek(target);
    found := iter.current < iter.restarts;
    e := Entry(iter.key, iter.Value());
  }

  lemma Neighbours(es: seq<Entry>, n: nat)
    requires Increasing(es) && 0 < n < |es|
    ensures Less(KeyBefore(es[..n], n), es[n].key)
  {
    hide Less;
  }
}
