/** The flat tags array of a cache: row k is the set with number k.  The shifting loops that every
    simulator shares are proved here, against the LRU reference. */
module SetArray {
  import opened Lru
  import opened SetCache

  lemma RowBound(k: nat, sets: nat, assoc: nat)
    requires k < sets
    ensures 0 <= k * assoc <= k * assoc + assoc <= sets * assoc
  {
    assert (sets - k - 1) * assoc >= 0;
    assert (sets - k - 1) * assoc == sets * assoc - k * assoc - assoc;
  }

  ghost function Row(t: seq<nat>, sets: nat, assoc: nat, k: nat): (r: seq<nat>)
    requires k < sets && |t| == sets * assoc
    ensures |r| == assoc
  {
    RowBound(k, sets, assoc);
    t[k * assoc..k * assoc + assoc]
  }

  ghost function Rows(t: seq<nat>, sets: nat, assoc: nat): (r: Tags)
    requires |t| == sets * assoc
    ensures |r| == sets && forall k :: 0 <= k < sets ==> |r[k]| == assoc
  {
    seq(sets, k requires 0 <= k < sets => Row(t, sets, assoc, k))
  }

  lemma SliceKept(t: seq<nat>, t': seq<nat>, base: nat, assoc: nat, at: nat, w: seq<nat>)
    requires base + assoc <= |t| && |w| == assoc && t' == t[..base] + w + t[base + assoc..]
    requires at + assoc <= |t| && (at == base || at + assoc <= base || base + assoc <= at)
    ensures |t'| == |t| && t'[at..at + assoc] == if at == base then w else t[at..at + assoc]
  {
    forall j | 0 <= j < assoc
      ensures t'[at + j] == if at == base then w[j] else t[at + j]
    {
    }
  }

  lemma RowKept(t: seq<nat>, t': seq<nat>, sets: nat, assoc: nat, k: nat, w: seq<nat>, s: nat)
    requires |t| == |t'| == sets * assoc && k < sets && s < sets && |w| == assoc && k * assoc + assoc <= |t|
    requires t' == t[..k * assoc] + w + t[k * assoc + assoc..]
    ensures Row(t', sets, assoc, s) == if s == k then w else Row(t, sets, assoc, s)
  {
    RowBound(s, sets, assoc);
    if s < k {
      RowBound(s, k, assoc);
    } else if s > k {
      RowBound(k, s, assoc);
    }
    SliceKept(t, t', k * assoc, assoc, s * assoc, w);
  }

  /** Changing one row changes that set and no other. */
  lemma RowsUpdate(t: seq<nat>, t': seq<nat>, sets: nat, assoc: nat, k: nat, w: seq<nat>)
    requires |t| == sets * assoc && k < sets && |w| == assoc && k * assoc + assoc <= |t|
    requires t' == t[..k * assoc] + w + t[k * assoc + assoc..]
    ensures |t'| == |t|
    ensures Rows(t', sets, assoc) == Rows(t, sets, assoc)[k := w]
  {
    hide Row;
    forall s | 0 <= s < sets
      ensures Row(t', sets, assoc, s) == if s == k then w else Row(t, sets, assoc, s)
    {
      RowKept(t, t', sets, assoc, k, w, s);
    }
  }

  /** Way i of row k, in the flat array. */
  lemma RowEntries(t: seq<nat>, sets: nat, assoc: nat, k: nat)
    requires |t| == sets * assoc && k < sets
    ensures k * assoc + assoc <= |t|
    ensures forall i :: 0 <= i < assoc ==> Rows(t, sets, assoc)[k][i] == t[k * assoc + i]
  {
    RowBound(k, sets, assoc);
  }

  lemma RowsOfZeros(t: seq<nat>, sets: nat, assoc: nat)
    requires assoc > 0 && |t| == sets * assoc && forall k :: 0 <= k < |t| ==> t[k] == 0
    ensures Rows(t, sets, assoc) == Initial(sets, assoc)
  {
    forall s | 0 <= s < sets
      ensures Rows(t, sets, assoc)[s] == Initial(sets, assoc)[s]
    {
      RowBound(s, sets, assoc);
      assert Row(t, sets, assoc, s) == Fill(0, assoc);
    }
  }

  /** t after the shifting loop has come down to way j: the entries from there up to way i have moved up
      by one, and way j still has its old entry. */
  ghost function Shifted(t: seq<nat>, base: nat, i: nat, j: nat): (r: seq<nat>)
    requires j <= i && base + i < |t|
    ensures |r| == |t|
  {
    t[..base + j + 1] + t[base + j..base + i] + t[base + i + 1..]
  }

  lemma ShiftOne(t: seq<nat>, base: nat, i: nat, j: nat)
    requires 0 < j <= i && base + i < |t|
    ensures var r := Shifted(t, base, i, j); r[base + j := r[base + j - 1]] == Shifted(t, base, i, j - 1)
  {
    assert t[base + j - 1..base + i] == [t[base + j - 1]] + t[base + j..base + i];
    assert t[..base + j + 1] == t[..base + j] + [t[base + j]];
  }

  lemma ShiftNone(t: seq<nat>, base: nat, i: nat, tag: nat)
    requires base + i < |t|
    ensures Shifted(t, base, i, i) == t
    ensures Shifted(t, base, i, 0)[base := tag] == t[..base] + ([tag] + t[base..base + i]) + t[base + i + 1..]
  {
    assert t[..base + 1] == t[..base] + [t[base]];
  }

  /** The shifting loop: from way i upwards every entry of the set takes the one before it, and the tag
      goes to the front. */
  method Install(tags: array<nat>, base: nat, i: nat, tag: nat)
    requires base + i < tags.Length
    modifies tags
    ensures tags[..] == old(tags[..base]) + ([tag] + old(tags[base..base + i])) + old(tags[base + i + 1..])
  {
    hide Shifted;
    ghost var t := tags[..];
    ShiftNone(t, base, i, tag);
    var j := i;
    while j > 0
      invariant 0 <= j <= i && tags[..] == Shifted(t, base, i, j)
    {
      ShiftOne(t, base, i, j);
      tags[base + j] := tags[base + j - 1];
      j := j - 1;
    }
    tags[base] := tag;
  }

  /** Install, seen as a change of one slice of the array. */
  lemma InstallInSlice(t: seq<nat>, base: nat, assoc: nat, i: nat, tag: nat)
    requires i < assoc && base + assoc <= |t|
    ensures var w := t[base..base + assoc];
            t[..base] + ([tag] + t[base..base + i]) + t[base + i + 1..] == t[..base] + ([tag] + RemoveAt(w, i)) + t[base + assoc..]
  {
    var w := t[base..base + assoc];
    assert t[base..base + i] == w[..i];
    assert t[base + i + 1..] == w[i + 1..] + t[base + assoc..];
  }

  /** What Install makes of row k. */
  lemma InstallRow(t: seq<nat>, t': seq<nat>, sets: nat, assoc: nat, k: nat, i: nat, tag: nat)
    requires |t| == sets * assoc && k < sets && i < assoc && k * assoc + assoc <= |t|
    requires t' == t[..k * assoc] + ([tag] + t[k * assoc..k * assoc + i]) + t[k * assoc + i + 1..]
    ensures |t'| == |t|
    ensures Rows(t', sets, assoc) == Rows(t, sets, assoc)[k := [tag] + RemoveAt(Row(t, sets, assoc, k), i)]
  {
    hide Rows, RemoveAt;
    var base := k * assoc;
    var w := [tag] + RemoveAt(Row(t, sets, assoc, k), i);
    InstallInSlice(t, base, assoc, i, tag);
    RowsUpdate(t, t', sets, assoc, k, w);
  }

  lemma PointInSlice(t: seq<nat>, base: nat, assoc: nat, i: nat, x: nat)
    requires i < assoc && base + assoc <= |t|
    ensures t[base + i := x] == t[..base] + t[base..base + assoc][i := x] + t[base + assoc..]
  {
  }

  /** Writing one element changes that row only. */
  lemma RowsPoint(t: seq<nat>, sets: nat, assoc: nat, k: nat, i: nat, x: nat)
    requires |t| == sets * assoc && k < sets && i < assoc && k * assoc + assoc <= |t|
    ensures Rows(t[k * assoc + i := x], sets, assoc) == Rows(t, sets, assoc)[k := Row(t, sets, assoc, k)[i := x]]
  {
    hide Rows;
    var base := k * assoc;
    var w := t[base..base + assoc][i := x];
    PointInSlice(t, base, assoc, i, x);
    RowsUpdate(t, t[base + i := x], sets, assoc, k, w);
  }
}
