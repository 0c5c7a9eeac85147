/** Files of a torrent laid out back to back over one absolute byte range
    (src/core/disk.rs, `plan_files` and `locate`). */
module Layout {
  import opened Common

  datatype Extent = Extent(start: nat, end: nat) {
    predicate Contains(i: int) { start <= i < end }
  }

  /** Extents that begin at 0 and follow each other without gap or overlap. */
  ghost predicate Tiles(ext: seq<Extent>) {
    && (|ext| > 0 ==> ext[0].start == 0)
    && (forall k :: 0 <= k < |ext| ==> ext[k].start <= ext[k].end)
    && (forall j, k :: 0 <= j && k == j + 1 && k < |ext| ==> ext[j].end == ext[k].start)
  }

  function End(ext: seq<Extent>): nat {
    if |ext| == 0 then 0 else ext[|ext| - 1].end
  }

  /** One extent per file length, in order. */
  function Plan(lengths: seq<nat>): (ext: seq<Extent>)
    ensures |ext| == |lengths|
  {
    if |lengths| == 0 then []
    else
      var front := Plan(lengths[..|lengths| - 1]);
      front + [Extent(End(front), End(front) + lengths[|lengths| - 1])]
  }

  lemma {:induction false} PlanTiles(lengths: seq<nat>)
    ensures Tiles(Plan(lengths))
    ensures forall k :: 0 <= k < |lengths| ==> Plan(lengths)[k].end - Plan(lengths)[k].start == lengths[k]
  {
    if |lengths| > 0 {
      var init := lengths[..|lengths| - 1];
      PlanTiles(init);
      forall k | 0 <= k < |lengths|
        ensures Plan(lengths)[k].end - Plan(lengths)[k].start == lengths[k]
      {
        if k < |init| {
          assert Plan(lengths)[k] == Plan(init)[k] && init[k] == lengths[k];
        }
      }
    }
  }

  /** The loop of `plan_files`, which carries a running offset. */
  method PlanFiles(lengths: seq<nat>) returns (plans: seq<Extent>)
    ensures plans == Plan(lengths)
    ensures Tiles(plans)
    ensures forall k :: 0 <= k < |plans| ==> plans[k].end - plans[k].start == lengths[k]
  {
    plans := [];
    var offset := 0;
    for k := 0 to |lengths|
      invariant plans == Plan(lengths[..k])
      invariant offset == End(plans)
    {
      assert lengths[..k + 1][..k] == lengths[..k];
      plans := plans + [Extent(offset, offset + lengths[k])];
      offset := offset + lengths[k];
    }
    assert lengths[..|lengths|] == lengths;
    PlanTiles(lengths);
  }

  lemma {:induction false} ExtentsOrdered(ext: seq<Extent>, j: nat, k: nat)
    requires Tiles(ext) && j < k < |ext|
    ensures ext[j].end <= ext[k].start
    decreases k - j
  {
    assert ext[j].end == ext[j + 1].start;
    if j + 1 < k {
      ExtentsOrdered(ext, j + 1, k);
    }
  }

  lemma ExtentsBelowEnd(ext: seq<Extent>, f: nat)
    requires Tiles(ext) && f < |ext|
    ensures ext[f].start <= ext[f].end <= End(ext)
  {
    if f < |ext| - 1 {
      ExtentsOrdered(ext, f, |ext| - 1);
    }
  }

  /** No byte belongs to two files. */
  lemma OwnerUnique(ext: seq<Extent>, f: nat, g: nat, i: int)
    requires Tiles(ext) && f < |ext| && g < |ext|
    requires ext[f].Contains(i) && ext[g].Contains(i)
    ensures f == g
  {
    if f < g {
      ExtentsOrdered(ext, f, g);
    } else if g < f {
      ExtentsOrdered(ext, g, f);
    }
  }

  /** The file holding byte `i`. */
  ghost function Owner(ext: seq<Extent>, i: nat): (f: nat)
    requires Tiles(ext) && i < End(ext)
    ensures f < |ext| && ext[f].Contains(i)
  {
    var n := |ext| - 1;
    if ext[n].start <= i then n
    else
      assert ext[n].start > 0 && n > 0;
      assert ext[..n][n - 1].end == ext[n].start;
      Owner(ext[..n], i)
  }

  /** `locate`: binary search for the first file ending after `offset`, kept
      only if it starts at or before it. Zero-length files never match. */
  method Locate(ext: seq<Extent>, offset: nat) returns (r: Option<nat>)
    requires Tiles(ext)
    ensures r.Some? ==> r.value < |ext| && ext[r.value].Contains(offset)
    ensures r.Some? ==> forall g :: 0 <= g < |ext| && ext[g].Contains(offset) ==> g == r.value
    ensures r.None? <==> End(ext) <= offset
  {
    var lo, hi := 0, |ext|;
    while lo < hi
      invariant 0 <= lo <= hi <= |ext|
      invariant lo > 0 ==> ext[lo - 1].end <= offset
      invariant hi < |ext| ==> offset < ext[hi].end
    {
      var mid := (lo + hi) / 2;
      if ext[mid].end <= offset {
        lo := mid + 1;
      } else {
        hi := mid;
      }
    }
    if 0 < lo < |ext| {
      assert ext[lo - 1].end == ext[lo].start;
    }
    if lo < |ext| && ext[lo].start <= offset {
      r := Some(lo);
      forall g | 0 <= g < |ext| && ext[g].Contains(offset) ensures g == lo {
        OwnerUnique(ext, g, lo, offset);
      }
      ExtentsBelowEnd(ext, lo);
    } else {
      r := None;
    }
  }
}
