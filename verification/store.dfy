/**
 * A raster workspace as a sequence of named grids, listed in store order.
 * Names are compared without regard to case, as the file store does; saving
 * overwrites a raster of the same name. `DataCleanup` and `CleanOutput` are
 * the two deletion loops of the source.
 */
module Store {
  import opened Wrappers
  import opened Errors
  import opened Names
  import opened Mask

  datatype Entry = Entry(name: string, cells: Raster)

  type Workspace = seq<Entry>

  /** The input (data) and output workspaces. */
  datatype Stores = Stores(input: Workspace, output: Workspace)

  /** The workspaces a run leaves behind, and the exception that ended it, if any. */
  datatype Run = Run(stores: Stores, failure: Option<Error>)

  /** `ListRasters()`: the names, in store order. */
  function Listing(ws: Workspace): (names: seq<string>)
    ensures |names| == |ws|
    ensures forall k :: 0 <= k < |ws| ==> names[k] == ws[k].name
  {
    seq(|ws|, k requires 0 <= k < |ws| => ws[k].name)
  }

  /** `r` is `ws` with some rasters left out: the rest keep their store order. */
  predicate Subsequence(r: Workspace, ws: Workspace)
    decreases |ws|
  {
    || |r| == 0
    || (&& |ws| > 0
        && ((r[0] == ws[0] && Subsequence(r[1..], ws[1..])) || Subsequence(r, ws[1..])))
  }

  /** Leaving out rasters twice leaves out rasters once. */
  lemma {:induction false} SubsequenceTrans(a: Workspace, b: Workspace, c: Workspace)
    requires Subsequence(a, b) && Subsequence(b, c)
    ensures Subsequence(a, c)
    decreases |c|
  {
    if |a| > 0 {
      if Subsequence(b, c[1..]) {
        SubsequenceTrans(a, b, c[1..]);
      } else if a[0] == b[0] && Subsequence(a[1..], b[1..]) {
        SubsequenceTrans(a[1..], b[1..], c[1..]);
      } else {
        SubsequenceTrans(a, b[1..], c[1..]);
      }
    }
  }

  /** No two rasters of the workspace share a name. */
  predicate UniqueNames(ws: Workspace) {
    forall a, b :: 0 <= a < b < |ws| ==> !SameName(ws[a].name, ws[b].name)
  }

  /** `Raster(name)`: the cells of the first raster carrying `name`, in any case. */
  function Find(ws: Workspace, name: string): (r: Option<Raster>)
    ensures r.None? <==> forall k :: 0 <= k < |ws| ==> !SameName(ws[k].name, name)
    ensures r.Some? ==> exists k :: && 0 <= k < |ws| && SameName(ws[k].name, name) && ws[k].cells == r.value
                                    && forall j :: 0 <= j < k ==> !SameName(ws[j].name, name)
  {
    if |ws| == 0 then None
    else if SameName(ws[0].name, name) then Some(ws[0].cells)
    else
      var r := Find(ws[1..], name);
      assert forall k :: 1 <= k < |ws| ==> ws[k] == ws[1..][k - 1];
      r
  }

  /** `Delete_management(name)`: every raster carrying `name` goes; the rest keep their order. */
  function Delete(ws: Workspace, name: string): (r: Workspace)
    ensures forall e :: e in r <==> e in ws && !SameName(e.name, name)
    ensures Subsequence(r, ws)
  {
    if |ws| == 0 then []
    else
      var rest := Delete(ws[1..], name);
      assert ws == [ws[0]] + ws[1..];
      SubsequenceSkip(rest, ws[0], ws[1..]);
      SubsequenceKeep(rest, ws[0], ws[1..]);
      if SameName(ws[0].name, name) then rest else [ws[0]] + rest
  }

  /**
   * `raster.save(name)` with overwriting on: the raster goes last in store
   * order, after the others, which keep their order.
   */
  function Save(ws: Workspace, name: string, cells: Raster): (r: Workspace)
    ensures forall e :: e in r <==> e == Entry(name, cells) || (e in ws && !SameName(e.name, name))
    ensures |r| > 0 && r[|r| - 1] == Entry(name, cells)
  {
    Delete(ws, name) + [Entry(name, cells)]
  }

  /**
   * A save puts the raster last; before it stand the other rasters, in their
   * old order, none of them carrying the saved name, and only one of each.
   */
  lemma SaveOrder(ws: Workspace, name: string, cells: Raster)
    ensures var r := Save(ws, name, cells);
            && Subsequence(r[..|r| - 1], ws)
            && |r| - 1 == |ws| - Carrying(ws, name)
            && forall k :: 0 <= k < |r| - 1 ==> !SameName(r[k].name, name)
  {
    var d := Delete(ws, name);
    var r := Save(ws, name, cells);
    DeleteCount(ws, name);
    assert r[..|r| - 1] == d;
    assert forall k :: 0 <= k < |d| ==> d[k] in d;
  }

  /** How many rasters of the workspace carry `name`, in any case. */
  function Carrying(ws: Workspace, name: string): (n: nat)
    ensures n <= |ws|
    ensures n == 0 <==> forall k :: 0 <= k < |ws| ==> !SameName(ws[k].name, name)
  {
    if |ws| == 0 then 0
    else
      assert forall k :: 1 <= k < |ws| ==> ws[1..][k - 1] == ws[k];
      (if SameName(ws[0].name, name) then 1 else 0) + Carrying(ws[1..], name)
  }

  /** Leaving out one more raster at the front. */
  lemma SubsequenceSkip(r: Workspace, x: Entry, ws: Workspace)
    requires Subsequence(r, ws)
    ensures Subsequence(r, [x] + ws)
  {
    assert ([x] + ws)[1..] == ws;
  }

  /** Keeping the raster at the front. */
  lemma SubsequenceKeep(r: Workspace, x: Entry, ws: Workspace)
    requires Subsequence(r, ws)
    ensures Subsequence([x] + r, [x] + ws)
  {
    assert ([x] + ws)[1..] == ws && ([x] + r)[1..] == r;
  }

  /** A workspace leaves out nothing of itself. */
  lemma {:induction false} SubsequenceRefl(ws: Workspace)
    ensures Subsequence(ws, ws)
    decreases |ws|
  {
    if |ws| > 0 {
      SubsequenceRefl(ws[1..]);
    }
  }

  /** A deletion removes one raster for each raster carrying the name: together with `Subsequence`, no other raster goes. */
  lemma {:induction false} DeleteCount(ws: Workspace, name: string)
    ensures |Delete(ws, name)| == |ws| - Carrying(ws, name)
  {
    if |ws| > 0 {
      DeleteCount(ws[1..], name);
    }
  }

  /** Deleting a name no raster carries changes nothing. */
  lemma {:induction false} DeleteAbsent(ws: Workspace, name: string)
    requires forall k :: 0 <= k < |ws| ==> !SameName(ws[k].name, name)
    ensures Delete(ws, name) == ws
  {
    if |ws| > 0 {
      DeleteAbsent(ws[1..], name);
      assert [ws[0]] + ws[1..] == ws;
    }
  }

  /** Saving under a name no raster carries appends that name to the listing. */
  lemma SaveFresh(ws: Workspace, name: string, cells: Raster)
    requires forall k :: 0 <= k < |ws| ==> !SameName(ws[k].name, name)
    ensures Listing(Save(ws, name, cells)) == Listing(ws) + [name]
  {
    DeleteAbsent(ws, name);
  }

  /** Names denoting the same raster find the same raster. */
  lemma FindSameName(ws: Workspace, a: string, b: string)
    requires SameName(a, b)
    ensures Find(ws, a) == Find(ws, b)
  {
  }

  /** Deleting one name leaves the lookup of every other name as it was. */
  lemma {:induction false} FindAfterDelete(ws: Workspace, n: string, m: string)
    requires !SameName(n, m)
    ensures Find(Delete(ws, m), n) == Find(ws, n)
  {
    if |ws| > 0 {
      var d := Delete(ws, m);
      FindAfterDelete(ws[1..], n, m);
      if SameName(ws[0].name, m) {
        assert d == Delete(ws[1..], m);
        assert !SameName(ws[0].name, n);
      } else {
        assert d == [ws[0]] + Delete(ws[1..], m);
        assert d[0] == ws[0] && d[1..] == Delete(ws[1..], m);
      }
    }
  }

  /** Appending a raster does not change a lookup the workspace already answers. */
  lemma {:induction false} FindAppend(ws: Workspace, x: Entry, n: string)
    ensures Find(ws, n).Some? ==> Find(ws + [x], n) == Find(ws, n)
    ensures Find(ws, n).None? ==> Find(ws + [x], n) == if SameName(x.name, n) then Some(x.cells) else None
  {
    if |ws| > 0 {
      assert (ws + [x])[1..] == ws[1..] + [x];
      FindAppend(ws[1..], x, n);
    }
  }

  /** After a save, its name finds the saved cells and every other name finds what it found before. */
  lemma SaveFind(ws: Workspace, name: string, cells: Raster, n: string)
    ensures SameName(n, name) ==> Find(Save(ws, name, cells), n) == Some(cells)
    ensures !SameName(n, name) ==> Find(Save(ws, name, cells), n) == Find(ws, n)
  {
    var d := Delete(ws, name);
    FindAppend(d, Entry(name, cells), n);
    if !SameName(n, name) {
      FindAfterDelete(ws, n, name);
    }
  }

  /** The entries saved one after another, in order. */
  function SaveEach(ws: Workspace, items: seq<Entry>): Workspace
    decreases |items|
  {
    if |items| == 0 then ws else SaveEach(Save(ws, items[0].name, items[0].cells), items[1..])
  }

  /** Saves under other names leave a lookup as it was. */
  lemma {:induction false} SaveEachFind(ws: Workspace, items: seq<Entry>, n: string)
    requires forall j :: 0 <= j < |items| ==> !SameName(n, items[j].name)
    ensures Find(SaveEach(ws, items), n) == Find(ws, n)
    decreases |items|
  {
    if |items| > 0 {
      SaveFind(ws, items[0].name, items[0].cells, n);
      assert forall j :: 0 <= j < |items| - 1 ==> items[1..][j] == items[j + 1];
      SaveEachFind(Save(ws, items[0].name, items[0].cells), items[1..], n);
    }
  }

  /** Saves under other names leave every such lookup as it was. */
  lemma SaveEachOthers(ws: Workspace, items: seq<Entry>)
    ensures forall n :: (forall j :: 0 <= j < |items| ==> !SameName(n, items[j].name))
                        ==> Find(SaveEach(ws, items), n) == Find(ws, n)
  {
    forall n | forall j :: 0 <= j < |items| ==> !SameName(n, items[j].name)
      ensures Find(SaveEach(ws, items), n) == Find(ws, n)
    {
      SaveEachFind(ws, items, n);
    }
  }

  /** Among entries with distinct names, each is found under its name after all are saved. */
  lemma {:induction false} SaveEachFinds(ws: Workspace, items: seq<Entry>, j: nat)
    requires j < |items|
    requires forall a, b :: 0 <= a < b < |items| ==> !SameName(items[a].name, items[b].name)
    ensures Find(SaveEach(ws, items), items[j].name) == Some(items[j].cells)
    decreases |items|
  {
    var w := Save(ws, items[0].name, items[0].cells);
    var rest := items[1..];
    assert forall k :: 0 <= k < |rest| ==> rest[k] == items[k + 1];
    if j == 0 {
      SaveFind(ws, items[0].name, items[0].cells, items[0].name);
      SaveEachFind(w, rest, items[0].name);
    } else {
      SaveEachFinds(w, rest, j - 1);
    }
  }

  /**
   * Saving entries with distinct names that the workspace does not carry
   * appends their names to the listing, in saving order.
   */
  lemma {:induction false} SaveEachListing(ws: Workspace, items: seq<Entry>)
    requires forall k, j :: 0 <= k < |ws| && 0 <= j < |items| ==> !SameName(ws[k].name, items[j].name)
    requires forall a, b :: 0 <= a < b < |items| ==> !SameName(items[a].name, items[b].name)
    ensures Listing(SaveEach(ws, items)) == Listing(ws) + Listing(items)
    decreases |items|
  {
    if |items| > 0 {
      var x, rest := items[0], items[1..];
      var w := Save(ws, x.name, x.cells);
      assert items == [x] + rest;
      assert forall j :: 0 <= j < |rest| ==> rest[j] == items[j + 1];
      SaveFresh(ws, x.name, x.cells);
      SaveStaysFresh(ws, x, rest);
      SaveEachListing(w, rest);
      ListingCons(x, rest);
      ConsAppend(Listing(ws), x.name, Listing(rest), Listing(SaveEach(w, rest)), Listing(w));
    }
  }

  /**
   * A listing that extends `a` by `n` and then by `rest` extends `a` by
   * `[n] + rest`. Stated apart so that the step in `SaveEachListing` sees the
   * names only as opaque sequences.
   */
  lemma ConsAppend(a: seq<string>, n: string, rest: seq<string>, l: seq<string>, w: seq<string>)
    requires l == w + rest && w == a + [n]
    ensures l == a + ([n] + rest)
  {
  }

  /** The listing of a workspace with one raster in front. */
  lemma ListingCons(x: Entry, ws: Workspace)
    ensures Listing([x] + ws) == [x.name] + Listing(ws)
  {
    var l, m := Listing([x] + ws), [x.name] + Listing(ws);
    assert |l| == |m|;
    forall k | 0 <= k < |l|
      ensures l[k] == m[k]
    {
      if k > 0 {
        assert ([x] + ws)[k] == ws[k - 1];
      }
    }
  }

  /** A workspace without clashes against `others` keeps none after saving a raster that does not clash either. */
  lemma SaveStaysFresh(ws: Workspace, x: Entry, others: seq<Entry>)
    requires forall k, j :: 0 <= k < |ws| && 0 <= j < |others| ==> !SameName(ws[k].name, others[j].name)
    requires forall j :: 0 <= j < |others| ==> !SameName(x.name, others[j].name)
    ensures var w := Save(ws, x.name, x.cells);
            forall k, j :: 0 <= k < |w| && 0 <= j < |others| ==> !SameName(w[k].name, others[j].name)
  {
    var w := Save(ws, x.name, x.cells);
    forall k, j | 0 <= k < |w| && 0 <= j < |others|
      ensures !SameName(w[k].name, others[j].name)
    {
      assert w[k] in w;
      if w[k] != x {
        var m :| 0 <= m < |ws| && ws[m] == w[k];
      }
    }
  }

  /**
   * `dataCleanup`: list the workspace, then delete each listed raster whose
   * name starts with "clip" in any case. Exactly those rasters go.
   */
  method DataCleanup(ws: Workspace) returns (r: Workspace)
    ensures forall e :: e in r <==> e in ws && !IsClipArtifact(e.name)
    ensures Subsequence(r, ws)
    ensures forall k :: 0 <= k < |r| ==> !IsClipArtifact(r[k].name)
  {
    var names := Listing(ws);
    r := ws;
    SubsequenceRefl(ws);
    for i := 0 to |names|
      invariant forall e :: e in r <==>
                  e in ws && forall k :: 0 <= k < i && IsClipArtifact(names[k]) ==> !SameName(e.name, names[k])
      invariant Subsequence(r, ws)
    {
      var d := DeleteIfClip(r, names[i]);
      CleanupStep(ws, names, i, r, d);
      SubsequenceTrans(d, r, ws);
      r := d;
    }
    ListedArtifacts(ws);
  }

  /** The body of the cleanup loop: delete `name` when it starts with "clip" in any case. */
  function DeleteIfClip(ws: Workspace, name: string): (r: Workspace)
    ensures forall e :: e in r <==> e in ws && (IsClipArtifact(name) ==> !SameName(e.name, name))
    ensures Subsequence(r, ws)
  {
    SubsequenceRefl(ws);
    if IsClipArtifact(name) then Delete(ws, name) else ws
  }

  /** One pass of the cleanup loop over the listed name `names[i]`. */
  lemma CleanupStep(ws: Workspace, names: seq<string>, i: nat, r: Workspace, d: Workspace)
    requires i < |names|
    requires forall e :: e in r <==>
               e in ws && forall k :: 0 <= k < i && IsClipArtifact(names[k]) ==> !SameName(e.name, names[k])
    requires forall e :: e in d <==> e in r && (IsClipArtifact(names[i]) ==> !SameName(e.name, names[i]))
    ensures forall e :: e in d <==>
              e in ws && forall k :: 0 <= k < i + 1 && IsClipArtifact(names[k]) ==> !SameName(e.name, names[k])
  {
  }

  /** A raster is spared by deleting every listed "clip" name exactly when its own name is not one. */
  lemma ListedArtifacts(ws: Workspace)
    ensures forall e :: e in ws ==>
              ((forall k :: 0 <= k < |ws| && IsClipArtifact(Listing(ws)[k]) ==> !SameName(e.name, Listing(ws)[k]))
               <==> !IsClipArtifact(e.name))
  {
    var names := Listing(ws);
    forall e | e in ws
      ensures (forall k :: 0 <= k < |names| && IsClipArtifact(names[k]) ==> !SameName(e.name, names[k]))
              <==> !IsClipArtifact(e.name)
    {
      forall k | 0 <= k < |names| && IsClipArtifact(names[k]) && SameName(e.name, names[k])
        ensures IsClipArtifact(e.name)
      {
        SameNameArtifact(e.name, names[k]);
      }
      if IsClipArtifact(e.name) {
        var j :| 0 <= j < |ws| && ws[j] == e;
        assert SameName(e.name, names[j]);
      }
    }
  }

  /** `cleanOutput`: list the output workspace and delete every listed raster. */
  method CleanOutput(ws: Workspace) returns (r: Workspace)
    ensures r == []
  {
    var names := Listing(ws);
    r := ws;
    for i := 0 to |names|
      invariant forall e :: e in r ==> e in ws && forall k :: 0 <= k < i ==> !SameName(e.name, names[k])
    {
      r := Delete(r, names[i]);
    }
  }
}
