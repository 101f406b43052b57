/**
 * The texture-coordinate buffer rebuilt after the reconciliation pass: the
 * registered tuples gathered position by position, sorted by output index and
 * concatenated. Every registered tuple appears once, in strictly ascending
 * index order; when every original position is used, entry `i` belongs to
 * vertex `i`, and otherwise the buffer has gaps.
 */
module TexCoords {
  import opened Common
  import opened Matching
  import opened Reconcile
  import opened PassInvariant
  import opened Seams

  // ----- gathering the registry -----

  /** Each gathered entry is a registered entry of a key below the bound. */
  lemma {:induction false} GatherFrom(reg: Registry, b: nat, i: nat) returns (q: nat, k: nat)
    requires i < |Gather(reg, b)|
    ensures q < b && q in reg && k < |reg[q]| && Gather(reg, b)[i] == reg[q][k]
  {
    var prev := Gather(reg, b - 1);
    if i < |prev| {
      q, k := GatherFrom(reg, b - 1, i);
    } else {
      q, k := b - 1, i - |prev|;
    }
  }

  /** Each registered entry of a key below the bound is gathered. */
  lemma {:induction false} GatherHas(reg: Registry, b: nat, q: nat, k: nat)
    requires q < b && q in reg && k < |reg[q]|
    ensures reg[q][k] in Gather(reg, b)
  {
    var prev := Gather(reg, b - 1);
    if q < b - 1 {
      GatherHas(reg, b - 1, q, k);
      assert reg[q][k] in prev;
    } else {
      assert Gather(reg, b)[|prev| + k] == reg[q][k];
    }
  }

  /** Keys at or above `b1` are absent, so gathering further adds nothing. */
  lemma {:induction false} GatherBeyond(reg: Registry, b1: nat, b2: nat)
    requires b1 <= b2 && forall q :: q in reg ==> q < b1
    ensures Gather(reg, b2) == Gather(reg, b1)
    decreases b2 - b1
  {
    if b1 < b2 {
      GatherBeyond(reg, b1, b2 - 1);
    }
  }

  ghost predicate IndexDistinct(es: seq<Entry>)
  {
    forall i, j :: 0 <= i < j < |es| ==> es[i].index != es[j].index
  }

  ghost predicate Ascending(es: seq<Entry>)
  {
    forall i, j :: 0 <= i < j < |es| ==> es[i].index < es[j].index
  }

  /** Registry entries with pairwise different indices are gathered with pairwise different indices. */
  lemma {:induction false} GatherDistinct(reg: Registry, b: nat)
    requires DistinctIndices(reg)
    ensures IndexDistinct(Gather(reg, b))
  {
    if b > 0 {
      GatherDistinct(reg, b - 1);
      var prev, g := Gather(reg, b - 1), Gather(reg, b);
      forall i, j | 0 <= i < j < |g| ensures g[i].index != g[j].index {
        if j >= |prev| {
          var q2, k2 := b - 1, j - |prev|;
          assert g[j] == reg[q2][k2];
          if i < |prev| {
            var q1, k1 := GatherFrom(reg, b - 1, i);
            assert g[i] == reg[q1][k1];
          } else {
            assert g[i] == reg[q2][i - |prev|];
          }
        } else {
          assert g[i] == prev[i] && g[j] == prev[j];
        }
      }
    }
  }

  // ----- the sort -----

  /** An entry below every entry of an ascending sequence can go in front of it. */
  lemma AscendingCons(first: Entry, rest: seq<Entry>)
    requires Ascending(rest) && forall x :: x in rest ==> first.index < x.index
    ensures Ascending([first] + rest)
  {
    var r := [first] + rest;
    forall i, j | 0 <= i < j < |r| ensures r[i].index < r[j].index {
      assert r[j] == rest[j - 1] && r[j] in rest;
      if i > 0 { assert r[i] == rest[i - 1]; }
    }
  }

  /** What `InsertByIndex` returns holds the inserted entry and the old ones, nothing else. */
  lemma InsertedFrom(e: Entry, sorted: seq<Entry>, x: Entry)
    requires SortedByIndex(sorted) && x in InsertByIndex(e, sorted)
    ensures x == e || x in sorted
  {
    assert x in multiset(InsertByIndex(e, sorted));
  }

  lemma {:induction false} InsertAscending(e: Entry, sorted: seq<Entry>)
    requires SortedByIndex(sorted) && Ascending(sorted)
    requires forall x :: x in sorted ==> x.index != e.index
    ensures Ascending(InsertByIndex(e, sorted))
  {
    if |sorted| == 0 || e.index <= sorted[0].index {
      forall x | x in sorted ensures e.index < x.index {
        var k :| 0 <= k < |sorted| && sorted[k] == x;
        if k > 0 { assert sorted[0].index < sorted[k].index; }
      }
      AscendingCons(e, sorted);
    } else {
      var tail := sorted[1..];
      assert sorted == [sorted[0]] + tail;
      assert Ascending(tail) by {
        forall i, j | 0 <= i < j < |tail| ensures tail[i].index < tail[j].index {
          assert tail[i] == sorted[i + 1] && tail[j] == sorted[j + 1];
        }
      }
      InsertAscending(e, tail);
      var rest := InsertByIndex(e, tail);
      forall x | x in rest ensures sorted[0].index < x.index {
        InsertedFrom(e, tail, x);
        if x != e {
          var k :| 0 <= k < |tail| && tail[k] == x;
          assert sorted[k + 1] == x;
        }
      }
      AscendingCons(sorted[0], rest);
    }
  }

  /** Sorting entries with pairwise different indices puts the indices in strictly ascending order. */
  lemma {:induction false} SortAscending(es: seq<Entry>)
    requires IndexDistinct(es)
    ensures Ascending(SortByIndex(es))
  {
    if |es| > 0 {
      var tail := es[1..];
      assert IndexDistinct(tail) by {
        forall i, j | 0 <= i < j < |tail| ensures tail[i].index != tail[j].index {
          assert tail[i] == es[i + 1] && tail[j] == es[j + 1];
        }
      }
      SortAscending(tail);
      var sorted := SortByIndex(tail);
      forall x | x in sorted ensures x.index != es[0].index {
        assert x in multiset(tail) by { assert x in multiset(sorted); }
        var k :| 0 <= k < |tail| && tail[k] == x;
        assert es[k + 1] == x;
      }
      InsertAscending(es[0], sorted);
    }
  }

  // ----- counting keys -----

  lemma {:induction false} KeysAtMost(reg: Registry, b: nat)
    ensures KeysBelow(reg, b) <= b
  {
    if b > 0 { KeysAtMost(reg, b - 1); }
  }

  lemma {:induction false} KeysAll(reg: Registry, b: nat)
    requires forall q :: 0 <= q < b ==> q in reg
    ensures KeysBelow(reg, b) == b
  {
    if b > 0 { KeysAll(reg, b - 1); }
  }

  lemma {:induction false} KeysMissing(reg: Registry, b: nat, u: nat)
    requires u < b && u !in reg
    ensures KeysBelow(reg, b) < b
  {
    if u < b - 1 {
      KeysMissing(reg, b - 1, u);
    } else {
      KeysAtMost(reg, b - 1);
    }
  }

  // ----- the rebuilt buffer -----

  /** The registry after the pass holds exactly the positions of the stream as keys. */
  lemma FinalKeys(input: Input)
    requires WellIndexed(input)
    ensures forall q :: q in Final(input).registry <==> q in input.streams.positions
    ensures DistinctIndices(Final(input).registry) && Heads(Final(input).registry)
    ensures EntriesOk(input, Final(input)) && Counted(input, Final(input))
  {
    FinalInv(input);
    var pos := input.streams.positions;
    assert pos[..|pos|] == pos;
  }

  /** Gathering up to the bound of the stream and up to the original vertex count collect the same entries. */
  lemma GatherAtBase(input: Input)
    requires WellIndexed(input)
    ensures TexEntries(input) == SortByIndex(Gather(Final(input).registry, BaseCount(input)))
  {
    var reg, pos := Final(input).registry, input.streams.positions;
    FinalKeys(input);
    var b1, b2 := Bound(pos), BaseCount(input);
    assert forall q :: q in reg ==> q < b1 && q < b2;
    if b1 <= b2 { GatherBeyond(reg, b1, b2); } else { GatherBeyond(reg, b2, b1); }
  }

  lemma EntriesAscending(input: Input)
    requires WellIndexed(input)
    ensures Ascending(TexEntries(input))
  {
    GatherAtBase(input);
    FinalKeys(input);
    GatherDistinct(Final(input).registry, BaseCount(input));
    SortAscending(Gather(Final(input).registry, BaseCount(input)));
  }

  lemma EntriesComplete(input: Input)
    requires WellIndexed(input)
    ensures var reg := Final(input).registry;
      forall q, k :: q in reg && 0 <= k < |reg[q]| ==> reg[q][k] in TexEntries(input)
  {
    var reg, base := Final(input).registry, BaseCount(input);
    var g := Gather(reg, base);
    GatherAtBase(input);
    FinalKeys(input);
    forall q, k | q in reg && 0 <= k < |reg[q]| ensures reg[q][k] in TexEntries(input) {
      GatherHas(reg, base, q, k);
      assert reg[q][k] in multiset(g);
    }
  }

  /** `x` is one of the entries of `reg`. */
  ghost predicate IsRegistered(reg: Registry, x: Entry)
  {
    exists q, k :: q in reg && 0 <= k < |reg[q]| && x == reg[q][k]
  }

  /** An element of a permutation of `g` sits somewhere in `g`. */
  lemma PermutedFrom(a: seq<Entry>, g: seq<Entry>, i: nat) returns (m: nat)
    requires multiset(a) == multiset(g) && i < |a|
    ensures m < |g| && g[m] == a[i]
  {
    assert a[i] in multiset(g);
    m :| 0 <= m < |g| && g[m] == a[i];
  }

  lemma EntriesRegistered(input: Input)
    requires WellIndexed(input)
    ensures var es := TexEntries(input);
      forall i :: 0 <= i < |es| ==>
        es[i].index < CountOf(input, Final(input)) && IsRegistered(Final(input).registry, es[i])
  {
    var out := Final(input);
    var reg, base := out.registry, BaseCount(input);
    var es, g := TexEntries(input), Gather(reg, base);
    GatherAtBase(input);
    FinalKeys(input);
    IndicesBelowCount(input, out);
    forall i | 0 <= i < |es|
      ensures es[i].index < CountOf(input, out) && IsRegistered(reg, es[i])
    {
      var m := PermutedFrom(es, g, i);
      var q, k := GatherFrom(reg, base, m);
    }
  }

  /**
   * The entries behind the rebuilt buffer are the registered entries, each once,
   * in strictly ascending order of output index, and every index is below the
   * vertex count after the pass.
   */
  lemma TexEntriesOrdered(input: Input)
    requires WellIndexed(input)
    ensures var es, reg := TexEntries(input), Final(input).registry;
      && Ascending(es)
      && (forall q, k :: q in reg && 0 <= k < |reg[q]| ==> reg[q][k] in es)
      && (forall i :: 0 <= i < |es| ==> es[i].index < CountOf(input, Final(input)) && IsRegistered(reg, es[i]))
  {
    EntriesAscending(input);
    EntriesComplete(input);
    EntriesRegistered(input);
  }

  // ----- gaps -----

  /** One entry per seen original position plus one per split vertex. */
  lemma EntryCount(input: Input)
    requires WellIndexed(input)
    ensures |TexEntries(input)| + BaseCount(input) ==
      KeysBelow(Final(input).registry, BaseCount(input)) + CountOf(input, Final(input))
  {
    GatherAtBase(input);
    FinalKeys(input);
    var g := Gather(Final(input).registry, BaseCount(input));
    assert |multiset(SortByIndex(g))| == |multiset(g)|;
  }

  lemma {:induction false} AtLeastPosition(es: seq<Entry>, i: nat)
    requires Ascending(es) && i < |es|
    ensures i <= es[i].index
  {
    if i > 0 {
      AtLeastPosition(es, i - 1);
    }
  }

  lemma {:induction false} AtMostPosition(es: seq<Entry>, i: nat)
    requires Ascending(es) && i < |es|
    requires forall m :: 0 <= m < |es| ==> es[m].index < |es|
    ensures es[i].index <= i
    decreases |es| - i
  {
    if i < |es| - 1 {
      AtMostPosition(es, i + 1);
    }
  }

  /**
   * When every original position is used by some corner, there is one entry per
   * vertex and entry `i` has output index `i`: the rebuilt buffer has no gaps.
   */
  lemma NoGaps(input: Input)
    requires WellIndexed(input)
    requires forall u :: 0 <= u < BaseCount(input) ==> u in input.streams.positions
    ensures var es := TexEntries(input);
      |es| == CountOf(input, Final(input)) && forall i :: 0 <= i < |es| ==> es[i].index == i
  {
    var es := TexEntries(input);
    FinalKeys(input);
    KeysAll(Final(input).registry, BaseCount(input));
    EntryCount(input);
    EntriesAscending(input);
    EntriesRegistered(input);
    forall i | 0 <= i < |es| ensures es[i].index == i {
      AtLeastPosition(es, i);
      AtMostPosition(es, i);
    }
  }

  /**
   * When an original position `u` is used by no corner, no entry has output
   * index `u`, and there are fewer entries than vertices: the rebuilt buffer
   * has a gap and is shorter than one tuple per vertex.
   */
  lemma GapWhenUnused(input: Input, u: nat)
    requires WellIndexed(input)
    requires u < BaseCount(input) && u !in input.streams.positions
    ensures var es := TexEntries(input);
      |es| < CountOf(input, Final(input)) && forall i :: 0 <= i < |es| ==> es[i].index != u
  {
    var out := Final(input);
    var es := TexEntries(input);
    FinalKeys(input);
    KeysMissing(out.registry, BaseCount(input), u);
    EntryCount(input);
    EntriesRegistered(input);
    UnseenIndexUnused(input, out, u);
    forall i | 0 <= i < |es| ensures es[i].index != u {
      assert IsRegistered(out.registry, es[i]);
    }
  }

  // ----- the flattened buffer -----

  lemma {:induction false} FlattenLength(es: seq<Entry>, L: nat)
    requires forall i :: 0 <= i < |es| ==> |es[i].coords| == L
    ensures |Flatten(es)| == RecordStart(|es|, L)
  {
    if |es| > 0 {
      FlattenLength(es[..|es| - 1], L);
      Distribute(|es| - 1, L);
    }
  }

  /** With tuples of `L` components, record `i` of the concatenation is tuple `i`. */
  lemma {:induction false} FlattenRecord(es: seq<Entry>, L: nat, i: nat)
    requires i < |es| && forall m :: 0 <= m < |es| ==> |es[m].coords| == L
    ensures Record(Flatten(es), L, i) == es[i].coords
  {
    var init := es[..|es| - 1];
    var last := es[|es| - 1].coords;
    assert Flatten(es) == Flatten(init) + last;
    FlattenLength(init, L);
    if i == |es| - 1 {
      LastRecord(Flatten(init), last, L, i);
    } else {
      FlattenRecord(init, L, i);
      EarlierRecord(Flatten(init), last, L, i, |es| - 1);
    }
  }

  lemma LastRecord(front: seq<Coord>, last: seq<Coord>, L: nat, i: nat)
    requires |front| == RecordStart(i, L) && |last| == L
    ensures Record(front + last, L, i) == last
  {
    var lo := RecordStart(i, L);
    SliceWithin(front + last, lo, lo + L);
    assert (front + last)[lo..lo + L] == last;
  }

  lemma EarlierRecord(front: seq<Coord>, last: seq<Coord>, L: nat, i: nat, n: nat)
    requires i < n && |front| == RecordStart(n, L)
    ensures Record(front + last, L, i) == Record(front, L, i)
  {
    var lo := RecordStart(i, L);
    RecordFits(i, n, L);
    SliceOfAppend(front, last, lo, lo + L);
  }

  /** With tuples of one length, the entry at vertex `fin.indices[j]` holds corner `j`'s tuple. */
  lemma VertexEntry(input: Input, L: nat, j: nat)
    requires WellIndexed(input) && OneLength(input, L) && j < |input.streams.positions|
    requires forall u :: 0 <= u < BaseCount(input) ==> u in input.streams.positions
    ensures var es, i := TexEntries(input), Final(input).indices[j];
      i < |es| && es[i].coords == TexTuple(input, j)
  {
    var n := |input.streams.positions|;
    var fin := Final(input);
    var es, i := TexEntries(input), fin.indices[j];
    FinalIsLast(input);
    LinksBefore(input, n);
    LengthBefore(input, L, n);
    FinalKeys(input);
    OutputBounds(input);
    NoGaps(input);
    EntriesRegistered(input);
    assert Linked(input, fin, j);
    var k := LinkedEntryAny(input, L, fin, j);
    assert IsRegistered(fin.registry, es[i]);
  }

  /**
   * When every original position is used and every corner's tuple has `L`
   * components, the rebuilt buffer holds one tuple per vertex, and the tuple
   * at each corner's vertex is that corner's tuple.
   */
  lemma TexAligned(input: Input, L: nat)
    requires WellIndexed(input) && OneLength(input, L)
    requires forall u :: 0 <= u < BaseCount(input) ==> u in input.streams.positions
    ensures var out := Outcome(input);
      && |out.texCoords| == RecordStart(RecordCount(|out.vertices|, input.vertex.stride), L)
      && forall j :: 0 <= j < |input.streams.positions| ==>
           Record(out.texCoords, L, out.indices[j]) == TexTuple(input, j)
  {
    var n := |input.streams.positions|;
    var fin, es := Final(input), TexEntries(input);
    FinalIsLast(input);
    LengthBefore(input, L, n);
    NoGaps(input);
    EntriesRegistered(input);
    forall m | 0 <= m < |es| ensures |es[m].coords| == L {
      assert IsRegistered(fin.registry, es[m]);
    }
    FlattenLength(es, L);
    forall j | 0 <= j < n ensures Record(Flatten(es), L, fin.indices[j]) == TexTuple(input, j) {
      VertexEntry(input, L, j);
      FlattenRecord(es, L, fin.indices[j]);
    }
  }
}
