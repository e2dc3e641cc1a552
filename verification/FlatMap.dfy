/**
 The flat hash map: open addressing over an array of cells, tombstones, and a table that grows and
 shrinks.  The hash is any function of the key.  The factors 0.8 and 0.4 are 4/5 and 2/5.
*/
module FlatMap {
  import opened Bits
  import opened Finite
  import opened Probing
  import opened FlatTable

  const WIDTH: nat := 8

  // static_cast<uint64_t>(capacity * 0.8)
  function GrowAt(capacity: nat): nat { 4 * capacity / 5 }

  // static_cast<uint64_t>(grow_ * 0.4), or never for a single bucket
  function ShrinkAt(capacity: nat): nat { if capacity <= WIDTH then 0 else 2 * GrowAt(capacity) / 5 }

  // A table grows before an insertion would fill more than four fifths of it, and shrinks when less than
  // two fifths of that are in use, but never below one bucket.
  lemma Thresholds(capacity: nat)
    ensures 5 * GrowAt(capacity) <= 4 * capacity < 5 * (GrowAt(capacity) + 1)
    ensures capacity <= WIDTH ==> ShrinkAt(capacity) == 0
    ensures capacity > WIDTH ==>
      5 * ShrinkAt(capacity) <= 2 * GrowAt(capacity) < 5 * (ShrinkAt(capacity) + 1)
  {
  }

  // The tables that Init makes: a power of two, and at least one bucket.
  ghost predicate CapacityOk(capacity: nat, lg: nat) {
    capacity == Pow2(lg) && capacity >= WIDTH
  }

  class FlatMap<K(==, 0, !new), V(0)> {
    const hash: K -> nat
    var table: array<Slot<K, V>>
    var notEmpty: nat
    var deleted: nat
    var grow: nat
    var shrink: nat
    ghost var lg: nat
    ghost var contents: map<K, V>

    // The counters are exact, and one cell in five is still empty.
    ghost predicate Valid()
      reads this, table
    {
      && CapacityOk(table.Length, lg)
      && Represents(table[..], hash, contents)
      && notEmpty == Sum(table[..], InUse)
      && deleted == Sum(table[..], IsTomb)
      && 5 * notEmpty <= 4 * table.Length
      && notEmpty == |contents| + deleted
      && (grow == 0 || grow == GrowAt(table.Length))
      && shrink == ShrinkAt(table.Length)
    }

    // The loop of Init: the smallest table that n entries fill to less than 4/5.
    static method Size(n: nat) returns (capacity: nat, ghost lg: nat)
      ensures CapacityOk(capacity, lg)
      ensures 5 * n < 4 * capacity
      ensures capacity > WIDTH ==> 5 * n >= 4 * (capacity / 2)
    {
      assert Pow2(3) == 8 by { assert Pow2(1) == 2 && Pow2(2) == 4; }
      capacity, lg := WIDTH, 3;
      while 5 * n >= 4 * capacity
        invariant CapacityOk(capacity, lg)
        invariant capacity > WIDTH ==> 5 * n >= 4 * (capacity / 2)
        decreases 5 * n - 4 * capacity
      {
        capacity, lg := 2 * capacity, lg + 1;
      }
    }

    static method EmptyCells(capacity: nat) returns (cells: array<Slot<K, V>>)
      ensures fresh(cells) && cells.Length == capacity
      ensures forall i | 0 <= i < capacity :: cells[i].marker == EMPTY
    {
      var k: K := *;
      var v: V := *;
      cells := new Slot<K, V>[capacity](_ => Slot(EMPTY, k, v));
    }

    constructor (n: nat, hash: K -> nat)
      ensures Valid() && contents == map[] && this.hash == hash && fresh(table)
      ensures 5 * n < 4 * table.Length
    {
      this.hash := hash;
      var capacity, lg := Size(n);
      var cells := EmptyCells(capacity);
      table, notEmpty, deleted, grow, shrink := cells, 0, 0, GrowAt(capacity), ShrinkAt(capacity);
      this.lg, contents := lg, map[];
      new;
      EmptyTable(table[..], hash);
    }

    // Where the search starts, and the cell after the one at index: masks with capacity - 1.
    method Start(h: nat) returns (index: nat)
      requires CapacityOk(table.Length, lg)
      ensures index == PathAt(h, 0, table.Length)
    {
      index := And(h / 256, table.Length - 1);
      MaskIsMod(h / 256, table.Length);
      SmallMod(index, table.Length);
    }

    method NextIndex(index: nat, numProbes: nat, ghost h: nat) returns (next: nat)
      requires CapacityOk(table.Length, lg) && numProbes > 0
      requires index == PathAt(h, numProbes - 1, table.Length)
      ensures next == PathAt(h, numProbes, table.Length)
    {
      next := And(index + numProbes, table.Length - 1);
      MaskIsMod(index + numProbes, table.Length);
      NextProbe(Home(h, table.Length), numProbes - 1, table.Length);
    }

    method Find(k: K) returns (found: bool, index: nat)
      requires Valid()
      ensures found <==> k in contents
      ensures found ==> index < table.Length && table[index].marker >= 2
      ensures found ==> table[index].key == k && table[index].val == contents[k]
    {
      hide Represents, Sum, PathAt, MarkerOf, InUse, IsTomb;
      var h := hash(k);
      ghost var t := table[..];
      var marker, numProbes := MarkerOf(h), 1;
      index := Start(h);
      ghost var last := EmptyOnPath(t, h, lg);
      while true
        invariant 1 <= numProbes && index == PathAt(h, numProbes - 1, |t|)
        invariant NotAmong(t, h, k, numProbes - 1)
        invariant numProbes - 1 <= last
        decreases last + 1 - numProbes
      {
        var x := table[index].marker;
        if x == marker && table[index].key == k {
          FoundIsEntry(t, hash, contents, k, index);
          return true, index;
        } else if x == EMPTY {
          EmptyMeansAbsent(t, hash, contents, k, numProbes - 1);
          return false, 0;
        }
        index := NextIndex(index, numProbes, h);
        numProbes := numProbes + 1;
      }
    }

    // The loop of FindOrInsert: the cell of k, or the first tombstone on its probe sequence, or else
    // the empty cell that ended the search, n steps along.
    method Probe(k: K) returns (found: bool, index: nat, ghost n: nat)
      requires Valid()
      ensures found <==> k in contents
      ensures found ==> index < table.Length && table[index].marker >= 2 && table[index].key == k
      ensures found ==> table[index].val == contents[k]
      ensures !found ==> n < table.Length && index == PathAt(hash(k), n, table.Length) && table[index].marker < 2
      ensures !found ==> NoEmptyBefore(table[..], hash(k), n) && FirstFree(table[..], hash(k), index)
    {
      hide Represents, Sum, PathAt, MarkerOf, InUse, IsTomb, NotAmong, OccupiedBefore, NoEmptyBefore, FirstFree;
      var h := hash(k);
      ghost var t := table[..];
      var marker, numProbes := MarkerOf(h), 1;
      var del, di := false, 0; // The first tombstone on the way
      n := 0;
      index := Start(h);
      NothingProbed(t, h, k);
      ghost var last := EmptyOnPath(t, h, lg);
      while true
        invariant 1 <= numProbes && index == PathAt(h, numProbes - 1, |t|)
        invariant NotAmong(t, h, k, numProbes - 1)
        invariant numProbes - 1 <= last
        invariant n == if del then n else numProbes - 1
        invariant del ==> n < numProbes - 1 && di == PathAt(h, n, |t|) && t[di].marker == DELETED
        invariant OccupiedBefore(t, h, n)
        decreases last + 1 - numProbes
      {
        var x := table[index].marker;
        if x == marker && table[index].key == k {
          FoundIsEntry(t, hash, contents, k, index);
          return true, index, 0;
        } else if !del && x == DELETED {
          del, di := true, index;
        } else if x == EMPTY {
          EmptyMeansAbsent(t, hash, contents, k, numProbes - 1);
          break;
        }
        ProbedOn(t, h, k, numProbes - 1);
        index := NextIndex(index, numProbes, h);
        numProbes := numProbes + 1;
        if !del { n := numProbes - 1; }
      }
      FreeIsFirst(t, h, k, n, numProbes - 1);
      if del {
        index := di;
      }
      found := false;
    }

    // Looks for k; a missing key gets the free cell.  The value of a new entry is whatever that holds.
    method FindOrInsert(k: K) returns (found: bool, index: nat)
      requires Valid() && 5 * (notEmpty + 1) <= 4 * table.Length
      modifies this, table
      ensures Valid() && table == old(table) && grow == old(grow)
      ensures found <==> k in old(contents)
      ensures index < table.Length && table[index].marker >= 2 && table[index].key == k
      ensures contents == if found then old(contents) else old(contents)[k := table[index].val]
      ensures !found ==> FirstFree(old(table[..]), hash(k), index)
    {
      hide Represents, Sum, PathAt, MarkerOf, InUse, IsTomb, NoEmptyBefore, FirstFree;
      ghost var n;
      found, index, n := Probe(k);
      if !found {
        Fill(k, index, MarkerOf(hash(k)), n);
      }
    }

    // The end of FindOrInsert: the counters and the free cell n steps along the probe sequence.
    method Fill(k: K, index: nat, marker: nat, ghost n: nat)
      requires Valid() && 5 * (notEmpty + 1) <= 4 * table.Length
      requires k !in contents && marker == MarkerOf(hash(k))
      requires n < table.Length && index == PathAt(hash(k), n, table.Length) && NoEmptyBefore(table[..], hash(k), n)
      requires table[index].marker < 2
      modifies this, table
      ensures Valid() && table == old(table) && grow == old(grow)
      ensures table[index].marker >= 2 && table[index].key == k && contents == old(contents)[k := table[index].val]
      ensures old(table[index].marker) == EMPTY ==> deleted == old(deleted) && notEmpty == old(notEmpty) + 1
    {
      hide Represents, Sum, PathAt, MarkerOf, NoEmptyBefore;
      ghost var t := table[..];
      var c := Slot(marker, k, table[index].val);
      InsertCell(t, hash, contents, k, c.val, n);
      SumUpdate(t, index, c, InUse);
      SumUpdate(t, index, c, IsTomb);
      if table[index].marker == DELETED {
        deleted := deleted - 1; // notEmpty does not change
      } else {
        notEmpty := notEmpty + 1;
      }
      table[index] := c;
      contents := contents[k := c.val];
      assert table[..] == t[index := c];
    }

    method EraseAt(index: nat)
      requires Valid() && index < table.Length && table[index].marker >= 2
      modifies this, table
      ensures Valid() && table == old(table)
      ensures contents == old(contents) - {old(table[index].key)}
    {
      hide Represents, Sum;
      ghost var t, k := table[..], table[index].key;
      var c := table[index].(marker := DELETED);
      EraseCell(t, hash, contents, index);
      SumUpdate(t, index, c, InUse);
      SumUpdate(t, index, c, IsTomb);
      table[index] := c;
      deleted := deleted + 1;
      grow := 0; // the next insertion looks at the load again
      assert |contents| == |contents - {k}| + 1 by { assert contents == (contents - {k})[k := contents[k]]; }
      contents := contents - {k};
      assert table[..] == t[index := c];
    }

    // Goes along the probe sequence of a key that is not in the table, which has no tombstones.
    method FreshInsert(k: K, v: V)
      requires Valid() && deleted == 0 && k !in contents && 5 * (notEmpty + 1) <= 4 * table.Length
      modifies this, table
      ensures Valid() && deleted == 0 && table == old(table) && grow == old(grow) && notEmpty == old(notEmpty) + 1
      ensures contents == old(contents)[k := v]
    {
      hide Represents, Sum, PathAt, MarkerOf, InUse, IsTomb;
      var h := hash(k);
      ghost var t := table[..];
      var marker, numProbes := MarkerOf(h), 1;
      var index := Start(h);
      ghost var last := EmptyOnPath(t, h, lg);
      while table[index].marker != EMPTY
        modifies {}
        invariant 1 <= numProbes && index == PathAt(h, numProbes - 1, |t|)
        invariant NoEmptyBefore(t, h, numProbes - 1)
        invariant numProbes - 1 <= last
        decreases last + 1 - numProbes
      {
        index := NextIndex(index, numProbes, h);
        numProbes := numProbes + 1;
      }
      Fill(k, index, marker, numProbes - 1);
      SetValue(index, v);
    }

    method SetValue(index: nat, v: V)
      requires Valid() && index < table.Length && table[index].marker >= 2
      modifies this, table
      ensures Valid() && table == old(table) && grow == old(grow) && notEmpty == old(notEmpty)
        && deleted == old(deleted)
      ensures contents == old(contents)[old(table[index].key) := v]
    {
      hide Represents, Sum;
      ghost var t := table[..];
      var c := table[index].(val := v);
      SetCellValue(t, hash, contents, index, v);
      SumUpdate(t, index, c, InUse);
      SumUpdate(t, index, c, IsTomb);
      assert c.key in contents by { OccupiedIsEntry(t, hash, contents, index); }
      assert |contents[c.key := v]| == |contents| by { assert contents[c.key := v].Keys == contents.Keys; }
      table[index] := c;
      contents := contents[c.key := v];
      assert table[..] == t[index := c];
    }

    // Init: an empty table that n entries fill to less than 4/5.
    method Init(n: nat)
      modifies this
      ensures Valid() && fresh(table) && contents == map[] && deleted == 0
      ensures 5 * n < 4 * table.Length && grow == GrowAt(table.Length)
      ensures table.Length > WIDTH ==> 5 * n >= 4 * (table.Length / 2)
    {
      hide Represents, Sum;
      var capacity, lg1 := Size(n);
      var cells := EmptyCells(capacity);
      table, notEmpty, deleted, grow, shrink := cells, 0, 0, GrowAt(capacity), ShrinkAt(capacity);
      lg, contents := lg1, map[];
      EmptyTable(table[..], hash);
    }

    // CopyEntries with MoveEntry: every entry of the old array goes to the new table, and leaves a
    // tombstone behind.
    method CopyEntries(from: array<Slot<K, V>>, n: nat, ghost m: map<K, V>)
      requires Valid() && contents == map[] && deleted == 0 && from != table
      requires Represents(from[..], hash, m) && |m| <= n && 5 * n < 4 * table.Length
      modifies this, table, from
      ensures Valid() && contents == m && deleted == 0 && table == old(table) && grow == old(grow)
    {
      hide Represents, Sum, Below, GrowAt, ShrinkAt, InUse, IsTomb, CapacityOk, Valid;
      ghost var t := from[..];
      AllBelow(t, hash, m);
      var i := 0;
      while i < from.Length
        invariant i <= from.Length && Valid() && table == old(table) && deleted == 0 && grow == old(grow)
        invariant contents == Below(t, m, i)
        invariant forall j | i <= j < from.Length :: from[j] == t[j]
      {
        NextBelow(t, hash, m, i);
        BelowSize(t, m, i + 1);
        if from[i].marker >= 2 {
          HasRoom(n, from[i].key, from[i].val);
          FreshInsert(from[i].key, from[i].val);
          label moved:
          from[i] := from[i].(marker := DELETED);
          ValidElsewhere@moved(from);
        }
        i := i + 1;
      }
    }

    lemma HasRoom(n: nat, k: K, v: V)
      requires Valid() && deleted == 0 && 5 * n < 4 * table.Length && k !in contents && |contents[k := v]| <= n
      ensures 5 * (notEmpty + 1) <= 4 * table.Length
    {
      hide Represents, Sum;
    }

    // Writing another array changes nothing here.
    twostate lemma ValidElsewhere(other: array<Slot<K, V>>)
      requires old(Valid()) && other != table && unchanged(this) && unchanged(table)
      ensures Valid()
    {
      hide Represents, Sum;
      assert table[..] == old(table[..]);
    }

    // Moves all entries to a new table that n entries fill to less than 4/5.
    method Resize(n: nat)
      requires Valid() && n >= |contents|
      modifies this, table
      ensures Valid() && fresh(table) && contents == old(contents) && deleted == 0
      ensures 5 * n < 4 * table.Length && grow == GrowAt(table.Length)
      ensures table.Length > WIDTH ==> 5 * n >= 4 * (table.Length / 2)
    {
      hide Represents, Sum;
      var from := table;
      ghost var m := contents;
      Init(n);
      CopyEntries(from, n, m);
    }

    // Before an insertion: grow a full table, shrink one that erasures have emptied.
    method MaybeResize()
      requires Valid()
      modifies this, table
      ensures Valid() && contents == old(contents) && (table == old(table) || fresh(table))
      ensures 5 * (notEmpty + 1) <= 4 * table.Length
      ensures fresh(table) <==> !(|| old(notEmpty) < old(grow)
                                  || (old(grow) == 0 && |contents| >= old(shrink)
                                       && old(notEmpty) < GrowAt(old(table.Length))))
      ensures fresh(table) ==> deleted == 0 && (table.Length > WIDTH ==> 5 * (|contents| + 1) >= 4 * (table.Length / 2))
      ensures old(grow) == 0 && |contents| < old(shrink) ==> table.Length < old(table.Length)
    {
      hide Represents, Sum;
      Thresholds(table.Length);
      if notEmpty < grow {
        return;
      }
      if grow == 0 {
        if notEmpty - deleted >= shrink {
          grow := GrowAt(table.Length);
          if notEmpty < grow {
            return;
          }
        }
      }
      Resize(notEmpty - deleted + 1);
    }

    // clear_no_resize frees the occupied cells and zeroes both counters, but leaves the tombstones:
    // the counters stay exact just when there were none.
    method ClearNoResize()
      requires Valid()
      modifies this, table
      ensures table == old(table) && contents == map[] && Represents(table[..], hash, contents)
      ensures Valid() <==> old(deleted) == 0
    {
      hide Represents, Sum;
      ghost var tombs := deleted;
      var i := 0;
      while i < table.Length
        invariant i <= table.Length && unchanged(this)
        invariant Sum(table[..], IsTomb) == tombs
        invariant forall j | 0 <= j < i :: table[j].marker < 2
      {
        if table[i].marker >= 2 {
          ghost var t := table[..];
          var c := table[i].(marker := EMPTY);
          SumUpdate(t, i, c, IsTomb);
          table[i] := c;
          assert table[..] == t[i := c];
        }
        i := i + 1;
      }
      notEmpty, deleted := 0, 0;
      contents := map[];
      OnlyTombs(table[..], hash);
    }

    method Insert(k: K, v: V) returns (inserted: bool)
      requires Valid()
      modifies this, table
      ensures Valid() && (table == old(table) || fresh(table))
      ensures inserted <==> k !in old(contents)
      ensures contents == if inserted then old(contents)[k := v] else old(contents)
    {
      hide Valid;
      MaybeResize();
      var found, index := FindOrInsert(k);
      if !found {
        SetValue(index, v);
      }
      inserted := !found;
    }

    method Erase(k: K) returns (erased: nat)
      requires Valid()
      modifies this, table
      ensures Valid() && table == old(table)
      ensures erased == if k in old(contents) then 1 else 0
      ensures contents == old(contents) - {k}
    {
      var found, index := Find(k);
      if !found {
        return 0;
      }
      EraseAt(index);
      return 1;
    }

    method Get(k: K) returns (found: bool, v: V)
      requires Valid()
      ensures found <==> k in contents
      ensures found ==> v == contents[k]
    {
      var index;
      found, index := Find(k);
      if found {
        v := table[index].val;
      } else {
        v := *;
      }
    }

    method Count() returns (n: nat)
      requires Valid()
      ensures n == |contents|
    {
      n := notEmpty - deleted;
    }
  }
}
