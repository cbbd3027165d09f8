/** What a row of `mergeTemplateCatalog` tells (`lib/lxc-templates.ts`). */
module TemplateRows {
  import opened Text
  import opened StableSort
  import opened TemplateGroups
  import opened TemplateCatalog

  predicate Lists(r: Rules, catalog: seq<Row>, key: string, i: int) {
    0 <= i < |catalog| && r.lower(catalog[i].template) == key
  }

  predicate Names(r: Rules, volids: seq<string>, key: string, i: int) {
    0 <= i < |volids| && Stands(r, volids[i], key)
  }

  /** The last row of the catalog with the file name. */
  ghost predicate ListsLast(r: Rules, catalog: seq<Row>, key: string, i: int) {
    Lists(r, catalog, key, i) && forall j :: i < j ==> !Lists(r, catalog, key, j)
  }

  ghost predicate NamesLast(r: Rules, volids: seq<string>, key: string, i: int) {
    Names(r, volids, key, i) && forall j :: i < j ==> !Names(r, volids, key, j)
  }

  ghost predicate NamesFirst(r: Rules, volids: seq<string>, key: string, i: int) {
    Names(r, volids, key, i) && forall j :: j < i ==> !Names(r, volids, key, j)
  }

  predicate SameTexts(row: Row, other: Row) {
    && row.template == other.template && row.package == other.package && row.version == other.version
    && row.section == other.section && row.headline == other.headline && row.architecture == other.architecture
  }

  /** The texts that the file name of a volume tells. */
  predicate TextsOfFile(r: Rules, row: Row, file: string) {
    var d := r.describe(file);
    && row.template == file && row.section == "system"
    && row.package == d.package && row.version == d.version && row.architecture == d.architecture
    && row.headline == if d.headline != "" then d.headline else file
  }

  /** The texts are those of the last row of the catalog, or without any those of the first volume. */
  ghost predicate TextsTell(r: Rules, catalog: seq<Row>, volids: seq<string>, key: string, row: Row) {
    || (exists c :: ListsLast(r, catalog, key, c) && SameTexts(row, catalog[c]))
    || ((forall c :: !Lists(r, catalog, key, c))
        && exists f :: NamesFirst(r, volids, key, f) && TextsOfFile(r, row, FileOf(volids[f])))
  }

  /** The row is installed just when a volume has the file name, and then it names the last of them. */
  ghost predicate VolumeTells(r: Rules, volids: seq<string>, key: string, row: Row) {
    if row.installed then exists v :: NamesLast(r, volids, key, v) && row.volid == Some(volids[v])
    else row.volid == None && forall v :: !Names(r, volids, key, v)
  }

  lemma {:induction false} LastRowAt(r: Rules, catalog: seq<Row>, key: string)
    ensures var last := LastRow(r, catalog, key);
            if last.Some? then exists c :: ListsLast(r, catalog, key, c) && catalog[c] == last.value
            else forall c :: !Lists(r, catalog, key, c)
    decreases |catalog|
  {
    if catalog != [] {
      var n := |catalog| - 1;
      LastRowAt(r, catalog[..n], key);
      if Lists(r, catalog, key, n) {
        assert ListsLast(r, catalog, key, n);
      } else {
        forall c
          ensures Lists(r, catalog, key, c) <==> Lists(r, catalog[..n], key, c)
        {
        }
        if c :| ListsLast(r, catalog[..n], key, c) {
          assert ListsLast(r, catalog, key, c);
        }
      }
    }
  }

  lemma {:induction false} LastVolidAt(r: Rules, volids: seq<string>, key: string)
    ensures var last := LastVolid(r, volids, key);
            if last.Some? then exists v :: NamesLast(r, volids, key, v) && volids[v] == last.value
            else forall v :: !Names(r, volids, key, v)
    decreases |volids|
  {
    if volids != [] {
      var n := |volids| - 1;
      LastVolidAt(r, volids[..n], key);
      if Names(r, volids, key, n) {
        assert NamesLast(r, volids, key, n);
      } else {
        forall v
          ensures Names(r, volids, key, v) <==> Names(r, volids[..n], key, v)
        {
        }
        if v :| NamesLast(r, volids[..n], key, v) {
          assert NamesLast(r, volids, key, v);
        }
      }
    }
  }

  lemma {:induction false} FirstVolidAt(r: Rules, volids: seq<string>, key: string)
    ensures var first := FirstVolid(r, volids, key);
            first.Some? ==> exists v :: NamesFirst(r, volids, key, v) && volids[v] == first.value
  {
    if volids != [] {
      if Names(r, volids, key, 0) {
        assert NamesFirst(r, volids, key, 0);
      } else {
        FirstVolidAt(r, volids[1..], key);
        if v :| NamesFirst(r, volids[1..], key, v) && Some(volids[1..][v]) == FirstVolid(r, volids[1..], key) {
          forall j | j < v + 1
            ensures !Names(r, volids, key, j)
          {
            assert j > 0 ==> !Names(r, volids[1..], key, j - 1);
          }
          assert NamesFirst(r, volids, key, v + 1);
        }
      }
    }
  }

  lemma RowTells(r: Rules, catalog: seq<Row>, volids: seq<string>, key: string)
    ensures var row := RowOf(r, catalog, volids, key);
            row.Some? ==> TextsTell(r, catalog, volids, key, row.value) && VolumeTells(r, volids, key, row.value)
    ensures RowOf(r, catalog, volids, key).None? ==>
              (forall c :: !Lists(r, catalog, key, c)) && forall v :: !Names(r, volids, key, v)
  {
    LastRowAt(r, catalog, key);
    LastVolidAt(r, volids, key);
    FirstVolidAt(r, volids, key);
    FirstAndLast(r, volids, "", key);
  }

  /** Some row of the merged list is that of the file name. */
  ghost predicate HasRow(r: Rules, catalog: seq<Row>, volids: seq<string>, key: string) {
    exists row :: IsRow(r, catalog, volids, key, row)
  }

  ghost predicate IsRow(r: Rules, catalog: seq<Row>, volids: seq<string>, key: string, row: Row) {
    && row in Merged(r, catalog, volids)
    && TextsTell(r, catalog, volids, key, row) && VolumeTells(r, volids, key, row)
  }

  lemma NamedHasRow(r: Rules, catalog: seq<Row>, volids: seq<string>, key: string)
    requires (exists c :: Lists(r, catalog, key, c)) || exists v :: Names(r, volids, key, v)
    ensures HasRow(r, catalog, volids, key)
  {
    RowTells(r, catalog, volids, key);
    var row := RowOf(r, catalog, volids, key).value;
    MergedHolds(r, catalog, volids, row);
    assert IsRow(r, catalog, volids, key, row);
  }

  /**
    Every row of the merged list belongs to a file name and tells what the catalog and the volumes say of it,
    and every file name of either has its row.
  */
  lemma MergedRowsTell(r: Rules, catalog: seq<Row>, volids: seq<string>)
    ensures forall row :: row in Merged(r, catalog, volids) ==> exists key :: IsRow(r, catalog, volids, key, row)
    ensures forall key, c :: Lists(r, catalog, key, c) ==> HasRow(r, catalog, volids, key)
    ensures forall key, v :: Names(r, volids, key, v) ==> HasRow(r, catalog, volids, key)
  {
    forall row | row in Merged(r, catalog, volids)
      ensures exists key :: IsRow(r, catalog, volids, key, row)
    {
      MergedHolds(r, catalog, volids, row);
      var key :| RowOf(r, catalog, volids, key) == Some(row);
      RowTells(r, catalog, volids, key);
      assert IsRow(r, catalog, volids, key, row);
    }
    forall key, c | Lists(r, catalog, key, c)
      ensures HasRow(r, catalog, volids, key)
    {
      NamedHasRow(r, catalog, volids, key);
    }
    forall key, v | Names(r, volids, key, v)
      ensures HasRow(r, catalog, volids, key)
    {
      NamedHasRow(r, catalog, volids, key);
    }
  }
}
