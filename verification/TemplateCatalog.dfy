/** Merging the catalog of container templates with the installed ones (`lib/lxc-templates.ts`). */
module TemplateCatalog {
  import opened Text
  import opened StableSort
  import opened TemplateGroups

  /** What the file name of an installed template tells. */
  datatype Described = Described(package: string, version: string, headline: string, architecture: string)

  /** Case folding of file names, the reading of file names, and the order of texts. */
  datatype Rules = Rules(lower: string -> string, describe: string -> Described, locale: Locale)

  /** An entry of the `Map` from file names in lower case to rows. */
  datatype Entry = Entry(key: string, row: Row)

  function AfterLastSlash(s: string): string {
    if s == [] || s[|s| - 1] == '/' then [] else AfterLastSlash(s[..|s| - 1]) + [s[|s| - 1]]
  }

  /** `volidFilename` */
  function FileOf(volid: string): string {
    AfterLastSlash(Trim(volid))
  }

  /** `templateFromInstalledVolid` */
  function FromVolid(r: Rules, volid: string): Row {
    var d := r.describe(FileOf(volid));
    Row(FileOf(volid), d.package, d.version, "system", Or(d.headline, FileOf(volid)), d.architecture, true, Some(volid))
  }

  // ---------- the map ----------

  /** `byFile.set(key, row)` */
  function Put(entries: seq<Entry>, key: string, row: Row): seq<Entry> {
    if entries == [] then [Entry(key, row)]
    else if entries[0].key == key then [Entry(key, row)] + entries[1..]
    else [entries[0]] + Put(entries[1..], key, row)
  }

  /** `byFile.get(key)` */
  function Get(entries: seq<Entry>, key: string): Option<Row> {
    if entries == [] then None
    else if entries[0].key == key then Some(entries[0].row)
    else Get(entries[1..], key)
  }

  lemma {:induction false} GetAfterPut(entries: seq<Entry>, key: string, row: Row, other: string)
    ensures Get(Put(entries, key, row), other) == if other == key then Some(row) else Get(entries, other)
  {
    if entries != [] && entries[0].key != key {
      GetAfterPut(entries[1..], key, row, other);
    }
  }

  /** No key occurs twice. */
  predicate OncePerKey(entries: seq<Entry>) {
    entries != [] ==> Get(entries[1..], entries[0].key).None? && OncePerKey(entries[1..])
  }

  lemma {:induction false} PutKeepsOnce(entries: seq<Entry>, key: string, row: Row)
    requires OncePerKey(entries)
    ensures OncePerKey(Put(entries, key, row))
  {
    if entries != [] && entries[0].key != key {
      PutKeepsOnce(entries[1..], key, row);
      GetAfterPut(entries[1..], key, row, entries[0].key);
    }
  }

  // ---------- merging ----------

  function FromCatalog(row: Row): Row {
    row.(installed := false, volid := None)
  }

  function WithCatalog(r: Rules, catalog: seq<Row>): seq<Entry> {
    if catalog == [] then []
    else
      var row := catalog[|catalog| - 1];
      Put(WithCatalog(r, catalog[..|catalog| - 1]), r.lower(row.template), FromCatalog(row))
  }

  function AddVolid(r: Rules, entries: seq<Entry>, volid: string): seq<Entry> {
    var file := FileOf(volid);
    if file == "" then entries
    else
      var existing := Get(entries, r.lower(file));
      Put(entries, r.lower(file),
          if existing.Some? then existing.value.(installed := true, volid := Some(volid)) else FromVolid(r, volid))
  }

  function WithVolids(r: Rules, entries: seq<Entry>, volids: seq<string>): seq<Entry> {
    if volids == [] then entries
    else AddVolid(r, WithVolids(r, entries, volids[..|volids| - 1]), volids[|volids| - 1])
  }

  function Rows(entries: seq<Entry>): (rows: seq<Row>)
    ensures |rows| == |entries|
  {
    if entries == [] then [] else [entries[0].row] + Rows(entries[1..])
  }

  function SystemRank(section: string): int {
    if section == "system" then 0 else 1
  }

  /** Installed ones first, then system templates, then by headline and name. */
  function ByUse(locale: Locale): (Row, Row) -> int {
    (a: Row, b: Row) =>
      if a.installed != b.installed then (if a.installed then -1 else 1)
      else if SystemRank(a.section) != SystemRank(b.section) then SystemRank(a.section) - SystemRank(b.section)
      else if locale(a.headline, b.headline) != 0 then locale(a.headline, b.headline)
      else locale(a.template, b.template)
  }

  function Merged(r: Rules, catalog: seq<Row>, volids: seq<string>): seq<Row> {
    SortBy(Rows(WithVolids(r, WithCatalog(r, catalog), volids)), ByUse(r.locale))
  }

  method MergeTemplateCatalog(r: Rules, catalog: seq<Row>, volids: seq<string>) returns (rows: seq<Row>)
    ensures rows == Merged(r, catalog, volids)
  {
    var byFile: seq<Entry> := [];
    for n := 0 to |catalog|
      invariant byFile == WithCatalog(r, catalog[..n])
    {
      assert catalog[..n + 1][..n] == catalog[..n];
      byFile := Put(byFile, r.lower(catalog[n].template), FromCatalog(catalog[n]));
    }
    assert catalog[..|catalog|] == catalog;
    for n := 0 to |volids|
      invariant byFile == WithVolids(r, WithCatalog(r, catalog), volids[..n])
    {
      assert volids[..n + 1][..n] == volids[..n];
      byFile := AddVolid(r, byFile, volids[n]);
    }
    assert volids[..|volids|] == volids;
    rows := SortBy(Rows(byFile), ByUse(r.locale));
  }

  // ---------- what a file name ends up with ----------

  predicate Stands(r: Rules, volid: string, key: string) {
    FileOf(volid) != "" && r.lower(FileOf(volid)) == key
  }

  function LastRow(r: Rules, catalog: seq<Row>, key: string): Option<Row> {
    if catalog == [] then None
    else
      var row := catalog[|catalog| - 1];
      if r.lower(row.template) == key then Some(row) else LastRow(r, catalog[..|catalog| - 1], key)
  }

  function LastVolid(r: Rules, volids: seq<string>, key: string): Option<string> {
    if volids == [] then None
    else
      var volid := volids[|volids| - 1];
      if Stands(r, volid, key) then Some(volid) else LastVolid(r, volids[..|volids| - 1], key)
  }

  function FirstVolid(r: Rules, volids: seq<string>, key: string): Option<string> {
    if volids == [] then None
    else if Stands(r, volids[0], key) then Some(volids[0])
    else FirstVolid(r, volids[1..], key)
  }

  /**
    The row of a file name: the last row of the catalog, or what the first volume with that name tells;
    it is installed if there is a volume with that name, and names the last of them.
  */
  function RowOf(r: Rules, catalog: seq<Row>, volids: seq<string>, key: string): Option<Row> {
    var listed, first, last := LastRow(r, catalog, key), FirstVolid(r, volids, key), LastVolid(r, volids, key);
    if listed.Some? then
      Some(if last.Some? then listed.value.(installed := true, volid := last) else FromCatalog(listed.value))
    else if first.Some? then Some(FromVolid(r, first.value).(volid := last))
    else None
  }

  lemma {:induction false} FirstAndLast(r: Rules, volids: seq<string>, volid: string, key: string)
    ensures FirstVolid(r, volids, key).Some? <==> LastVolid(r, volids, key).Some?
    ensures FirstVolid(r, volids + [volid], key) ==
            if FirstVolid(r, volids, key).Some? then FirstVolid(r, volids, key)
            else if Stands(r, volid, key) then Some(volid) else None
    decreases |volids|
  {
    FirstSnoc(r, volids, volid, key);
    if volids != [] {
      var n := |volids| - 1;
      FirstAndLast(r, volids[..n], volids[n], key);
      assert volids == volids[..n] + [volids[n]];
    }
  }

  lemma {:induction false} FirstSnoc(r: Rules, volids: seq<string>, volid: string, key: string)
    ensures FirstVolid(r, volids + [volid], key) ==
            if FirstVolid(r, volids, key).Some? then FirstVolid(r, volids, key)
            else if Stands(r, volid, key) then Some(volid) else None
  {
    var more := volids + [volid];
    if volids == [] {
      assert more[1..] == [];
    } else {
      assert more[1..] == volids[1..] + [volid];
      FirstSnoc(r, volids[1..], volid, key);
    }
  }

  lemma {:induction false} CatalogRows(r: Rules, catalog: seq<Row>, key: string)
    ensures var listed := LastRow(r, catalog, key);
            Get(WithCatalog(r, catalog), key) == if listed.Some? then Some(FromCatalog(listed.value)) else None
    ensures OncePerKey(WithCatalog(r, catalog))
    decreases |catalog|
  {
    if catalog != [] {
      var early, row := catalog[..|catalog| - 1], catalog[|catalog| - 1];
      CatalogRows(r, early, key);
      GetAfterPut(WithCatalog(r, early), r.lower(row.template), FromCatalog(row), key);
      PutKeepsOnce(WithCatalog(r, early), r.lower(row.template), FromCatalog(row));
    }
  }

  lemma AddVolidStep(r: Rules, entries: seq<Entry>, catalog: seq<Row>, volids: seq<string>, volid: string, key: string)
    requires OncePerKey(entries) && Get(entries, key) == RowOf(r, catalog, volids, key)
    ensures OncePerKey(AddVolid(r, entries, volid))
    ensures Get(AddVolid(r, entries, volid), key) == RowOf(r, catalog, volids + [volid], key)
  {
    var more := volids + [volid];
    assert more[..|more| - 1] == volids;
    FirstAndLast(r, volids, volid, key);
    if FileOf(volid) != "" {
      var existing := Get(entries, r.lower(FileOf(volid)));
      var row :=
        if existing.Some? then existing.value.(installed := true, volid := Some(volid)) else FromVolid(r, volid);
      GetAfterPut(entries, r.lower(FileOf(volid)), row, key);
      PutKeepsOnce(entries, r.lower(FileOf(volid)), row);
    }
  }

  /** After both loops every file name has its row, and has it once. */
  lemma {:induction false} MergedRows(r: Rules, catalog: seq<Row>, volids: seq<string>, key: string)
    ensures var entries := WithVolids(r, WithCatalog(r, catalog), volids);
            OncePerKey(entries) && Get(entries, key) == RowOf(r, catalog, volids, key)
    decreases |volids|
  {
    if volids == [] {
      CatalogRows(r, catalog, key);
    } else {
      var early, volid := volids[..|volids| - 1], volids[|volids| - 1];
      MergedRows(r, catalog, early, key);
      AddVolidStep(r, WithVolids(r, WithCatalog(r, catalog), early), catalog, early, volid, key);
      assert volids == early + [volid];
    }
  }

  lemma {:induction false} RowIsGotten(entries: seq<Entry>, row: Row) returns (key: string)
    requires OncePerKey(entries) && row in Rows(entries)
    ensures Get(entries, key) == Some(row)
  {
    HeadAndTail(Rows(entries));
    if row == entries[0].row {
      key := entries[0].key;
    } else {
      key := RowIsGotten(entries[1..], row);
    }
  }

  lemma {:induction false} GottenIsRow(entries: seq<Entry>, key: string)
    ensures Get(entries, key).Some? ==> Get(entries, key).value in Rows(entries)
  {
    if entries != [] {
      GottenIsRow(entries[1..], key);
      HeadAndTail(Rows(entries));
    }
  }

  /** The merged list holds the rows of all file names and nothing else. */
  lemma MergedHolds(r: Rules, catalog: seq<Row>, volids: seq<string>, row: Row)
    ensures row in Merged(r, catalog, volids) <==> exists key :: RowOf(r, catalog, volids, key) == Some(row)
  {
    var entries := WithVolids(r, WithCatalog(r, catalog), volids);
    SortPermutes(Rows(entries), ByUse(r.locale));
    MergedRows(r, catalog, volids, "");
    if row in Rows(entries) {
      var key := RowIsGotten(entries, row);
      MergedRows(r, catalog, volids, key);
    }
    if exists key :: RowOf(r, catalog, volids, key) == Some(row) {
      var key :| RowOf(r, catalog, volids, key) == Some(row);
      MergedRows(r, catalog, volids, key);
      GottenIsRow(entries, key);
    }
  }

  lemma ByUseOrders(locale: Locale)
    requires Orders(locale)
    ensures Orders(ByUse(locale))
  {
    var cmp := ByUse(locale);
    forall a, b
      ensures cmp(a, b) < 0 <==> cmp(b, a) > 0
    {
      OppositeTexts(locale, a.headline, b.headline);
      OppositeTexts(locale, a.template, b.template);
    }
    forall a, b, c | cmp(a, b) <= 0 && cmp(b, c) <= 0
      ensures cmp(a, c) <= 0
    {
      ThreeTexts(locale, a.headline, b.headline, c.headline);
      ThreeTexts(locale, a.template, b.template, c.template);
    }
  }

  lemma OppositeTexts(locale: Locale, s: string, t: string)
    requires Orders(locale)
    ensures locale(s, t) < 0 <==> locale(t, s) > 0
    ensures locale(s, t) > 0 <==> locale(t, s) < 0
  {
  }

  lemma ThreeTexts(locale: Locale, s: string, t: string, u: string)
    requires Orders(locale)
    ensures locale(s, t) <= 0 && locale(t, u) <= 0 ==> locale(s, u) <= 0
    ensures locale(s, t) < 0 && locale(t, u) <= 0 ==> locale(s, u) < 0
    ensures locale(s, t) <= 0 && locale(t, u) < 0 ==> locale(s, u) < 0
  {
    assert locale(s, u) >= 0 ==> locale(u, s) <= 0;
    assert locale(u, s) <= 0 && locale(s, t) <= 0 ==> locale(u, t) <= 0;
    assert locale(t, u) <= 0 && locale(u, s) <= 0 ==> locale(t, s) <= 0;
  }

  /** What stands before what: installed, then system templates, then headline and name decide. */
  ghost predicate InOrder(a: Row, b: Row, locale: Locale) {
    && (b.installed ==> a.installed)
    && (a.installed == b.installed && b.section == "system" ==> a.section == "system")
    && (a.installed == b.installed && (a.section == "system" <==> b.section == "system") ==>
          && locale(a.headline, b.headline) <= 0
          && (locale(a.headline, b.headline) == 0 ==> locale(a.template, b.template) <= 0))
  }

  /** Of any two rows the one that stands first belongs there. */
  lemma RowsAreInOrder(r: Rules, catalog: seq<Row>, volids: seq<string>, i: nat, j: nat)
    requires Orders(r.locale) && i < j < |Merged(r, catalog, volids)|
    ensures InOrder(Merged(r, catalog, volids)[i], Merged(r, catalog, volids)[j], r.locale)
  {
    var rows := Rows(WithVolids(r, WithCatalog(r, catalog), volids));
    ByUseOrders(r.locale);
    SortSorts(rows, ByUse(r.locale));
    SortedPair(SortBy(rows, ByUse(r.locale)), ByUse(r.locale), i, j);
  }

  // ---------- which volumes are listed ----------

  ghost predicate Listed(r: Rules, catalog: seq<Row>, volids: seq<string>, volid: string) {
    exists row :: row in Merged(r, catalog, volids) && row.volid == Some(volid)
  }

  lemma {:induction false} LastStands(r: Rules, volids: seq<string>, key: string)
    ensures var last := LastVolid(r, volids, key);
            if last.Some? then last.value in volids && Stands(r, last.value, key)
            else forall v :: v in volids ==> !Stands(r, v, key)
    decreases |volids|
  {
    if volids != [] {
      var n := |volids| - 1;
      LastStands(r, volids[..n], key);
      assert volids == volids[..n] + [volids[n]];
    }
  }

  lemma RowNamesLast(r: Rules, catalog: seq<Row>, volids: seq<string>, key: string)
    ensures RowOf(r, catalog, volids, key).Some? ==>
              RowOf(r, catalog, volids, key).value.volid == LastVolid(r, volids, key)
    ensures LastVolid(r, volids, key).Some? ==> RowOf(r, catalog, volids, key).Some?
  {
    FirstAndLast(r, volids, "", key);
  }

  /** A volume is listed just when it is the last one with its file name. */
  lemma ListedIff(r: Rules, catalog: seq<Row>, volids: seq<string>, volid: string)
    ensures Listed(r, catalog, volids, volid) <==>
              FileOf(volid) != "" && LastVolid(r, volids, r.lower(FileOf(volid))) == Some(volid)
  {
    if Listed(r, catalog, volids, volid) {
      var row :| row in Merged(r, catalog, volids) && row.volid == Some(volid);
      MergedHolds(r, catalog, volids, row);
      var key :| RowOf(r, catalog, volids, key) == Some(row);
      RowNamesLast(r, catalog, volids, key);
      LastStands(r, volids, key);
    }
    var key := r.lower(FileOf(volid));
    if FileOf(volid) != "" && LastVolid(r, volids, key) == Some(volid) {
      RowNamesLast(r, catalog, volids, key);
      MergedHolds(r, catalog, volids, RowOf(r, catalog, volids, key).value);
    }
  }

  ghost predicate AllListed(r: Rules, catalog: seq<Row>, volids: seq<string>) {
    forall v :: v in volids && FileOf(v) != "" ==> Listed(r, catalog, volids, v)
  }

  /** Both volumes have file names, and these agree up to case. */
  predicate ShareFile(r: Rules, u: string, v: string) {
    FileOf(u) != "" && FileOf(v) != "" && r.lower(FileOf(u)) == r.lower(FileOf(v))
  }

  ghost predicate OneVolumePerFile(r: Rules, volids: seq<string>) {
    forall u, v :: u in volids && v in volids && ShareFile(r, u, v) ==> u == v
  }

  /** All volumes with a file name are listed just when no two of them share it. */
  lemma AllListedIff(r: Rules, catalog: seq<Row>, volids: seq<string>)
    ensures AllListed(r, catalog, volids) <==> OneVolumePerFile(r, volids)
  {
    if AllListed(r, catalog, volids) {
      forall u, v | u in volids && v in volids && ShareFile(r, u, v)
        ensures u == v
      {
        ListedIff(r, catalog, volids, u);
        ListedIff(r, catalog, volids, v);
      }
    }
    if OneVolumePerFile(r, volids) {
      forall v | v in volids && FileOf(v) != ""
        ensures Listed(r, catalog, volids, v)
      {
        ListedIff(r, catalog, volids, v);
        LastStands(r, volids, r.lower(FileOf(v)));
        assert Stands(r, v, r.lower(FileOf(v)));
      }
    }
  }

  lemma {:induction false} AfterLastSlashOf(a: string, b: string)
    requires '/' !in b
    ensures AfterLastSlash(a + ['/'] + b) == b
  {
    var s := a + ['/'] + b;
    if b != [] {
      assert s[..|s| - 1] == a + ['/'] + b[..|b| - 1];
      AfterLastSlashOf(a, b[..|b| - 1]);
    }
  }

  lemma FileOnStorage(storage: string, file: string)
    requires storage != "" && !IsSpace(storage[0]) && file != "" && !IsSpace(file[|file| - 1]) && '/' !in file
    ensures FileOf(storage + ['/'] + file) == file
  {
    TightIsTrimmed(storage + ['/'] + file);
    AfterLastSlashOf(storage, file);
  }

  /** One file on two storages: the first volume is not listed, whatever the catalog holds. */
  lemma SharedFileIsLost(r: Rules, catalog: seq<Row>)
    ensures var volids := ["local:vztmpl" + ['/'] + "t", "nfs:vztmpl" + ['/'] + "t"];
            FileOf(volids[0]) != "" && !Listed(r, catalog, volids, volids[0]) && Listed(r, catalog, volids, volids[1])
  {
    var volids := ["local:vztmpl" + ['/'] + "t", "nfs:vztmpl" + ['/'] + "t"];
    FileOnStorage("local:vztmpl", "t");
    FileOnStorage("nfs:vztmpl", "t");
    assert volids[0][0] == 'l' && volids[1][0] == 'n';
    ListedIff(r, catalog, volids, volids[0]);
    ListedIff(r, catalog, volids, volids[1]);
  }

  // ---------- the update flag of what was merged ----------

  ghost predicate AllNamed(catalog: seq<Row>) {
    forall row :: row in catalog ==> row.template != ""
  }

  lemma {:induction false} LastRowHolds(r: Rules, catalog: seq<Row>, key: string)
    ensures var listed := LastRow(r, catalog, key);
            listed.Some? ==> listed.value in catalog && r.lower(listed.value.template) == key
    decreases |catalog|
  {
    if catalog != [] {
      LastRowHolds(r, catalog[..|catalog| - 1], key);
    }
  }

  lemma {:induction false} FirstStands(r: Rules, volids: seq<string>, key: string)
    ensures var first := FirstVolid(r, volids, key); first.Some? ==> Stands(r, first.value, key)
  {
    if volids != [] {
      FirstStands(r, volids[1..], key);
    }
  }

  /** A merged row bears a name, and it is filed under that name. */
  lemma MergedRowNamed(r: Rules, catalog: seq<Row>, volids: seq<string>, row: Row)
    requires AllNamed(catalog) && row in Merged(r, catalog, volids)
    ensures row.template != "" && RowOf(r, catalog, volids, r.lower(row.template)) == Some(row)
  {
    MergedHolds(r, catalog, volids, row);
    var key :| RowOf(r, catalog, volids, key) == Some(row);
    LastRowHolds(r, catalog, key);
    FirstStands(r, volids, key);
  }

  lemma {:induction false} WithKeyIsWithin(rows: seq<Row>, keyOf: KeyOf, key: string)
    ensures forall row :: row in WithKey(rows, keyOf, key) ==> row in rows
    decreases |rows|
  {
    if rows != [] {
      var n := |rows| - 1;
      WithKeyIsWithin(rows[..n], keyOf, key);
      assert rows == rows[..n] + [rows[n]];
    }
  }

  /** In every package of a merged list of named templates the update flag is right. */
  lemma MergedFlagIsRight(r: Rules, catalog: seq<Row>, volids: seq<string>, keyOf: KeyOf, key: string)
    requires Orders(r.locale) && AllNamed(catalog)
    requires WithKey(Merged(r, catalog, volids), keyOf, key) != []
    ensures var rows := WithKey(Merged(r, catalog, volids), keyOf, key);
            PackageOf(key, rows, r.locale).updateAvailable <==> Outdated(rows)
  {
    var merged := Merged(r, catalog, volids);
    var rows := WithKey(merged, keyOf, key);
    WithKeyIsWithin(merged, keyOf, key);
    forall a | a in rows
      ensures a.template != "" && RowOf(r, catalog, volids, r.lower(a.template)) == Some(a)
    {
      MergedRowNamed(r, catalog, volids, a);
    }
    UpdateFlagIsRight(key, rows, r.locale);
  }
}
