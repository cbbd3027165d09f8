/** Grouping of container templates into packages (`lib/lxc-templates.ts`). */
module TemplateGroups {
  import opened Text
  import opened TemplateVersions
  import opened StableSort

  datatype Row = Row(template: string, package: string, version: string, section: string, headline: string,
                     architecture: string, installed: bool, volid: Option<string>)

  datatype PackageRow = PackageRow(key: string, package: string, headline: string, section: string,
                                   architecture: string, installedVersion: string, installedTemplate: string,
                                   installedVolids: seq<string>, latestVersion: string, latestTemplate: string,
                                   updateAvailable: bool)

  /** An entry of the `Map`, which keeps its keys in the order of their first insertion. */
  datatype Group = Group(key: string, rows: seq<Row>)

  type Locale = (string, string) -> int

  type KeyOf = Row -> string

  // ---------- grouping ----------

  /** `groups.set(key, [...(groups.get(key) ?? []), row])` */
  function AddTo(groups: seq<Group>, key: string, row: Row): seq<Group> {
    if groups == [] then [Group(key, [row])]
    else if groups[0].key == key then [Group(key, groups[0].rows + [row])] + groups[1..]
    else [groups[0]] + AddTo(groups[1..], key, row)
  }

  function GroupsOf(rows: seq<Row>, keyOf: KeyOf): seq<Group> {
    if rows == [] then []
    else
      var row := rows[|rows| - 1];
      AddTo(GroupsOf(rows[..|rows| - 1], keyOf), keyOf(row), row)
  }

  // ---------- one package ----------

  /** Newest first; equal versions by name, last name first. */
  function ByVersion(locale: Locale): (Row, Row) -> int {
    (a: Row, b: Row) =>
      var v := Compare(b.version, a.version);
      if v != 0 then v else locale(b.template, a.template)
  }

  function Installed(rows: seq<Row>): seq<Row> {
    if rows == [] then []
    else (if rows[0].installed then [rows[0]] else []) + Installed(rows[1..])
  }

  function Volids(rows: seq<Row>): seq<string> {
    if rows == [] then []
    else (if rows[0].volid.GetOr("") != "" then [rows[0].volid.value] else []) + Volids(rows[1..])
  }

  function Newest(rows: seq<Row>, locale: Locale): Option<Row> {
    if rows == [] then None else Some(SortBy(rows, ByVersion(locale))[0])
  }

  function Or(a: string, b: string): string {
    if a != "" then a else b
  }

  function UpdateFlag(latest: Row, installed: Option<Row>): bool {
    && installed.Some?
    && latest.template != ""
    && latest.template != installed.value.template
    && Compare(latest.version, installed.value.version) > 0
  }

  const NO_ROW := Row("", "", "", "", "", "", false, None)

  function PackageOf(key: string, rows: seq<Row>, locale: Locale): PackageRow
    requires rows != []
  {
    var installed := SortBy(Installed(rows), ByVersion(locale));
    var newestInstalled := Newest(Installed(rows), locale);
    var own := newestInstalled.GetOr(NO_ROW);
    var newest := Newest(rows, locale).value;
    PackageRow(
      key,
      Or(newest.package, own.package),
      Or(Or(newest.headline, own.headline), newest.template),
      Or(Or(newest.section, own.section), "system"),
      Or(newest.architecture, own.architecture),
      own.version,
      own.template,
      Volids(installed),
      newest.version,
      newest.template,
      UpdateFlag(newest, newestInstalled))
  }

  // ---------- all packages ----------

  ghost predicate NoneEmpty(groups: seq<Group>) {
    forall g :: g in groups ==> g.rows != []
  }

  function Packages(groups: seq<Group>, locale: Locale): (r: seq<PackageRow>)
    requires NoneEmpty(groups)
    ensures |r| == |groups|
  {
    if groups == [] then []
    else [PackageOf(groups[0].key, groups[0].rows, locale)] + Packages(groups[1..], locale)
  }

  /** Packages with an update first, then installed ones, then by headline. */
  function ByNeed(locale: Locale): (PackageRow, PackageRow) -> int {
    (a: PackageRow, b: PackageRow) =>
      if a.updateAvailable != b.updateAvailable then (if a.updateAvailable then -1 else 1)
      else if (a.installedVersion != "") != (b.installedVersion != "") then (if a.installedVersion != "" then -1 else 1)
      else locale(a.headline, b.headline)
  }

  function Grouped(rows: seq<Row>, keyOf: KeyOf, locale: Locale): seq<PackageRow> {
    GroupsHaveRows(rows, keyOf);
    SortBy(Packages(GroupsOf(rows, keyOf), locale), ByNeed(locale))
  }

  /** The first loop of `groupTemplatePackages`: fill the `Map`. */
  method CollectGroups(rows: seq<Row>, keyOf: KeyOf) returns (groups: seq<Group>)
    ensures groups == GroupsOf(rows, keyOf)
  {
    groups := [];
    for n := 0 to |rows|
      invariant groups == GroupsOf(rows[..n], keyOf)
    {
      assert rows[..n + 1][..n] == rows[..n];
      groups := AddTo(groups, keyOf(rows[n]), rows[n]);
    }
    assert rows[..|rows|] == rows;
  }

  /** The second loop: one row for every entry. */
  method CollectPackages(groups: seq<Group>, locale: Locale) returns (out: seq<PackageRow>)
    requires NoneEmpty(groups)
    ensures out == Packages(groups, locale)
  {
    out := [];
    assert groups[0..] == groups;
    for n := 0 to |groups|
      invariant out + Packages(groups[n..], locale) == Packages(groups, locale)
    {
      assert groups[n] in groups && groups[n..][1..] == groups[n + 1..];
      var row := PackageOf(groups[n].key, groups[n].rows, locale);
      ConcatAssociates(out, [row], Packages(groups[n + 1..], locale));
      out := out + [row];
    }
    assert out + [] == out;
  }

  method GroupTemplatePackages(rows: seq<Row>, keyOf: KeyOf, locale: Locale) returns (out: seq<PackageRow>)
    ensures out == Grouped(rows, keyOf, locale)
  {
    var groups := CollectGroups(rows, keyOf);
    GroupsHaveRows(rows, keyOf);
    out := CollectPackages(groups, locale);
    out := SortBy(out, ByNeed(locale));
  }

  // ---------- every row is in one group ----------

  lemma {:induction false} AddToHasRows(groups: seq<Group>, key: string, row: Row)
    requires NoneEmpty(groups)
    ensures NoneEmpty(AddTo(groups, key, row))
  {
    if groups != [] && groups[0].key != key {
      AddToHasRows(groups[1..], key, row);
    }
  }

  lemma {:induction false} GroupsHaveRows(rows: seq<Row>, keyOf: KeyOf)
    ensures NoneEmpty(GroupsOf(rows, keyOf))
    decreases |rows|
  {
    if rows != [] {
      var row := rows[|rows| - 1];
      GroupsHaveRows(rows[..|rows| - 1], keyOf);
      AddToHasRows(GroupsOf(rows[..|rows| - 1], keyOf), keyOf(row), row);
    }
  }

  /** The rows with a key, in their order. */
  function WithKey(rows: seq<Row>, keyOf: KeyOf, key: string): seq<Row> {
    if rows == [] then []
    else
      var row := rows[|rows| - 1];
      WithKey(rows[..|rows| - 1], keyOf, key) + if keyOf(row) == key then [row] else []
  }

  /** The keys of the rows. */
  function RowKeys(rows: seq<Row>, keyOf: KeyOf): seq<string> {
    seq(|rows|, i requires 0 <= i < |rows| => keyOf(rows[i]))
  }

  /** The keys in the order of their first appearance. */
  function FirstKeys(rows: seq<Row>, keyOf: KeyOf): seq<string> {
    Unique(RowKeys(rows, keyOf))
  }

  lemma FirstKeysSnoc(rows: seq<Row>, row: Row, keyOf: KeyOf)
    ensures var early := FirstKeys(rows, keyOf);
            FirstKeys(rows + [row], keyOf) == if keyOf(row) in early then early else early + [keyOf(row)]
  {
    assert RowKeys(rows + [row], keyOf) == RowKeys(rows, keyOf) + [keyOf(row)];
    UniqueSnoc(RowKeys(rows, keyOf), keyOf(row));
  }

  lemma FirstKeysAre(rows: seq<Row>, keyOf: KeyOf)
    ensures NoRepeats(FirstKeys(rows, keyOf))
    ensures forall row :: row in rows ==> keyOf(row) in FirstKeys(rows, keyOf)
    ensures forall key :: key in FirstKeys(rows, keyOf) ==> exists row :: row in rows && keyOf(row) == key
  {
    var keys := RowKeys(rows, keyOf);
    UniqueHasNoRepeats(keys);
    forall row | row in rows
      ensures keyOf(row) in FirstKeys(rows, keyOf)
    {
      var i :| 0 <= i < |rows| && rows[i] == row;
      assert keys[i] == keyOf(row);
    }
    forall key | key in FirstKeys(rows, keyOf)
      ensures exists row :: row in rows && keyOf(row) == key
    {
      var i :| 0 <= i < |keys| && keys[i] == key;
      assert rows[i] in rows;
    }
  }

  function Keys(groups: seq<Group>): (keys: seq<string>)
    ensures |keys| == |groups| && forall i :: 0 <= i < |groups| ==> keys[i] == groups[i].key
  {
    seq(|groups|, i requires 0 <= i < |groups| => groups[i].key)
  }

  lemma DistinctTail(groups: seq<Group>)
    requires groups != [] && NoRepeats(Keys(groups))
    ensures Keys(groups) == [groups[0].key] + Keys(groups[1..]) && NoRepeats(Keys(groups[1..]))
  {
    forall i, j | 0 <= i < j < |groups| - 1
      ensures Keys(groups[1..])[i] != Keys(groups[1..])[j]
    {
      assert Keys(groups)[i + 1] != Keys(groups)[j + 1];
    }
  }

  /** A group after a row with this key has come. */
  ghost function Grown(g: Group, key: string, row: Row): Group {
    if g.key == key then Group(g.key, g.rows + [row]) else g
  }

  lemma GrowHead(groups: seq<Group>, key: string, row: Row, i: nat)
    requires NoRepeats(Keys(groups)) && i < |groups| && groups[0].key == key
    ensures ([Grown(groups[0], key, row)] + groups[1..])[i] == Grown(groups[i], key, row)
  {
    if i > 0 {
      assert Keys(groups)[0] != Keys(groups)[i];
    }
  }

  /** What adding a row with a known key does to the group at place `i`. */
  lemma {:induction false} AddToKnown(groups: seq<Group>, key: string, row: Row, i: nat)
    requires NoRepeats(Keys(groups)) && key in Keys(groups) && i < |groups|
    ensures |AddTo(groups, key, row)| == |groups|
    ensures AddTo(groups, key, row)[i] == Grown(groups[i], key, row)
    decreases |groups|
  {
    if groups[0].key == key {
      GrowHead(groups, key, row, i);
    } else {
      DistinctTail(groups);
      AddToKnown(groups[1..], key, row, if i > 0 then i - 1 else 0);
    }
  }

  lemma {:induction false} AddToNew(groups: seq<Group>, key: string, row: Row)
    requires NoRepeats(Keys(groups)) && key !in Keys(groups)
    ensures AddTo(groups, key, row) == groups + [Group(key, [row])]
  {
    if groups != [] {
      DistinctTail(groups);
      AddToNew(groups[1..], key, row);
    }
  }

  lemma {:induction false} NoRowsWithNewKey(rows: seq<Row>, keyOf: KeyOf, key: string)
    requires key !in FirstKeys(rows, keyOf)
    ensures WithKey(rows, keyOf, key) == []
    decreases |rows|
  {
    if rows != [] {
      var n := |rows| - 1;
      FirstKeysSnoc(rows[..n], rows[n], keyOf);
      assert rows == rows[..n] + [rows[n]];
      NoRowsWithNewKey(rows[..n], keyOf, key);
    }
  }

  ghost predicate Partitioned(groups: seq<Group>, rows: seq<Row>, keyOf: KeyOf) {
    && Keys(groups) == FirstKeys(rows, keyOf)
    && forall g :: g in groups ==> g.rows == WithKey(rows, keyOf, g.key)
  }

  lemma KnownKey(early: seq<Row>, row: Row, keyOf: KeyOf, groups: seq<Group>, r: seq<Group>)
    requires Partitioned(groups, early, keyOf) && keyOf(row) in Keys(groups) && |r| == |groups|
    requires forall i :: 0 <= i < |groups| ==> r[i] == Grown(groups[i], keyOf(row), row)
    ensures Partitioned(r, early + [row], keyOf)
  {
    var rows := early + [row];
    assert rows[..|rows| - 1] == early;
    FirstKeysSnoc(early, row, keyOf);
    assert Keys(r) == Keys(groups);
    forall i | 0 <= i < |r|
      ensures r[i].rows == WithKey(rows, keyOf, r[i].key)
    {
      assert groups[i] in groups;
    }
  }

  lemma NewKey(early: seq<Row>, row: Row, keyOf: KeyOf, groups: seq<Group>)
    requires Partitioned(groups, early, keyOf) && keyOf(row) !in Keys(groups)
    ensures Partitioned(groups + [Group(keyOf(row), [row])], early + [row], keyOf)
  {
    var rows, r := early + [row], groups + [Group(keyOf(row), [row])];
    assert rows[..|rows| - 1] == early;
    FirstKeysSnoc(early, row, keyOf);
    NoRowsWithNewKey(early, keyOf, keyOf(row));
    assert Keys(r) == Keys(groups) + [keyOf(row)];
    forall g | g in r
      ensures g.rows == WithKey(rows, keyOf, g.key)
    {
      if g in groups {
        var i :| 0 <= i < |groups| && groups[i] == g;
        assert Keys(groups)[i] == g.key;
      }
    }
  }

  lemma AddPartitioned(early: seq<Row>, row: Row, keyOf: KeyOf, groups: seq<Group>)
    requires Partitioned(groups, early, keyOf)
    ensures Partitioned(AddTo(groups, keyOf(row), row), early + [row], keyOf)
  {
    FirstKeysAre(early, keyOf);
    if keyOf(row) in Keys(groups) {
      AddToKnown(groups, keyOf(row), row, 0);
      forall i | 0 <= i < |groups|
        ensures AddTo(groups, keyOf(row), row)[i] == Grown(groups[i], keyOf(row), row)
      {
        AddToKnown(groups, keyOf(row), row, i);
      }
      KnownKey(early, row, keyOf, groups, AddTo(groups, keyOf(row), row));
    } else {
      AddToNew(groups, keyOf(row), row);
      NewKey(early, row, keyOf, groups);
    }
  }

  /** One group for every key, in the order of first appearance, holding the rows with that key in order. */
  lemma {:induction false} GroupsPartition(rows: seq<Row>, keyOf: KeyOf)
    ensures Partitioned(GroupsOf(rows, keyOf), rows, keyOf)
    decreases |rows|
  {
    if rows != [] {
      var early, row := rows[..|rows| - 1], rows[|rows| - 1];
      GroupsPartition(early, keyOf);
      AddPartitioned(early, row, keyOf, GroupsOf(early, keyOf));
      assert rows == early + [row];
    }
  }

  // ---------- the newest version ----------

  lemma ByVersionOrders(locale: Locale)
    requires Orders(locale)
    ensures Orders(ByVersion(locale))
  {
    var cmp := ByVersion(locale);
    forall a, b
      ensures cmp(a, b) < 0 <==> cmp(b, a) > 0
    {
      CompareAntisymmetric(a.version, b.version);
    }
    forall a, b, c | cmp(a, b) <= 0 && cmp(b, c) <= 0
      ensures cmp(a, c) <= 0
    {
      CompareTransitive(c.version, b.version, a.version);
    }
  }

  /** What is reported as latest or as installed is a row than which none is newer. */
  lemma NewestIsNewest(rows: seq<Row>, locale: Locale)
    requires Orders(locale) && rows != []
    ensures Newest(rows, locale).Some? && Newest(rows, locale).value in rows
    ensures forall row :: row in rows ==> Compare(row.version, Newest(rows, locale).value.version) <= 0
  {
    ByVersionOrders(locale);
    FirstIsLeast(rows, ByVersion(locale));
  }

  // ---------- when an update is offered ----------

  lemma {:induction false} InstalledAre(rows: seq<Row>)
    ensures forall row :: row in Installed(rows) <==> row in rows && row.installed
  {
    if rows != [] {
      InstalledAre(rows[1..]);
      HeadAndTail(rows);
    }
  }

  ghost predicate Outdated(rows: seq<Row>) {
    exists row :: row in rows && NewerThanInstalled(rows, row)
  }

  /** Something is installed and the row is newer than all that is. */
  ghost predicate NewerThanInstalled(rows: seq<Row>, row: Row) {
    Installed(rows) != [] && forall own :: own in Installed(rows) ==> Compare(row.version, own.version) > 0
  }

  /** Some row is newer than all installed ones just when the newest row is newer than the newest installed one. */
  lemma OutdatedIff(rows: seq<Row>, locale: Locale)
    requires Orders(locale) && rows != []
    ensures Newest(rows, locale).Some?
    ensures var own := Newest(Installed(rows), locale);
            Outdated(rows) <==> own.Some? && Compare(Newest(rows, locale).value.version, own.value.version) > 0
  {
    InstalledAre(rows);
    NewestIsNewest(rows, locale);
    if Installed(rows) != [] {
      NewestIsNewest(Installed(rows), locale);
      var newest, own := Newest(rows, locale).value, Newest(Installed(rows), locale).value;
      if Outdated(rows) {
        var row :| row in rows && NewerThanInstalled(rows, row);
        CompareAntisymmetric(row.version, own.version);
        CompareTransitive(own.version, row.version, newest.version);
        CompareAntisymmetric(newest.version, own.version);
      }
      if Compare(newest.version, own.version) > 0 {
        forall other | other in Installed(rows)
          ensures Compare(newest.version, other.version) > 0
        {
          CompareAntisymmetric(newest.version, own.version);
          CompareTransitive(other.version, own.version, newest.version);
          CompareAntisymmetric(newest.version, other.version);
        }
        assert NewerThanInstalled(rows, newest);
      }
    }
  }

  /**
    The update flag says whether some row is newer than everything installed, except where the newest
    row has no template name or the name of the newest installed row.
  */
  lemma UpdateFlagIsRightIff(key: string, rows: seq<Row>, locale: Locale)
    requires Orders(locale) && rows != []
    ensures Newest(rows, locale).Some?
    ensures var p, latest := PackageOf(key, rows, locale), Newest(rows, locale).value;
            var own := Newest(Installed(rows), locale);
            (p.updateAvailable <==> Outdated(rows))
            <==> !(own.Some? && Compare(latest.version, own.value.version) > 0
                   && (latest.template == "" || latest.template == own.value.template))
  {
    OutdatedIff(rows, locale);
  }

  /** For template names that are not empty and stand for one version each the flag is right. */
  lemma UpdateFlagIsRight(key: string, rows: seq<Row>, locale: Locale)
    requires Orders(locale) && rows != []
    requires forall a :: a in rows ==> a.template != ""
    requires forall a, b :: a in rows && b in rows && a.template == b.template ==> a.version == b.version
    ensures PackageOf(key, rows, locale).updateAvailable <==> Outdated(rows)
  {
    UpdateFlagIsRightIff(key, rows, locale);
    InstalledAre(rows);
    NewestIsNewest(rows, locale);
    if Installed(rows) != [] {
      NewestIsNewest(Installed(rows), locale);
      var newest, own := Newest(rows, locale).value, Newest(Installed(rows), locale).value;
      CompareAntisymmetric(own.version, own.version);
      assert own in rows;
    }
  }

  lemma VersionOfNumeral(n: nat)
    ensures Parts(Numeral(n)) == [n]
  {
    var s := Numeral(n);
    NumeralIsTight(n);
    TightIsTrimmed(s);
    assert forall i :: 0 <= i < |s| ==> IsDigit(s[i]);
    assert Dotted(s) == s;
    SplitWhole(s, '.');
    ParseIntOfNumeral(n);
  }

  lemma TwoIsNewerThanOne()
    ensures Compare(Numeral(2), Numeral(1)) > 0
  {
    VersionOfNumeral(2);
    VersionOfNumeral(1);
    CompareFromAt([2], [1], 0, 0);
  }

  function Unnamed(): Row {
    Row("", "p", Numeral(2), "system", "P", "amd64", false, None)
  }

  function Owned(): Row {
    Row("t", "p", Numeral(1), "system", "P", "amd64", true, Some("local:vztmpl/t"))
  }

  /** A newer row without a name: an update is due, and the flag does not say so. */
  lemma UpdateFlagMissesUnnamed(key: string, locale: Locale)
    requires Orders(locale)
    ensures var rows := [Owned(), Unnamed()];
            Outdated(rows) && !PackageOf(key, rows, locale).updateAvailable
  {
    var rows := [Owned(), Unnamed()];
    TwoIsNewerThanOne();
    assert rows[1..] == [Unnamed()] && [Unnamed()][1..] == [];
    assert Installed(rows) == [Owned()];
    assert Unnamed() in rows && NewerThanInstalled(rows, Unnamed());
    NewestIsNewest(rows, locale);
    assert Newest(rows, locale).value == Unnamed();
  }

  // ---------- installed volumes are conserved ----------

  function VolidOf(row: Row): multiset<string> {
    if row.volid.GetOr("") != "" then multiset{row.volid.value} else multiset{}
  }

  lemma {:induction false} VolidsCollected(rows: seq<Row>)
    ensures multiset(Volids(rows)) == Collected(rows, VolidOf)
  {
    if rows != [] {
      VolidsCollected(rows[1..]);
    }
  }

  lemma VolidsOfSorted(rows: seq<Row>, cmp: (Row, Row) -> int)
    ensures multiset(Volids(SortBy(rows, cmp))) == multiset(Volids(rows))
  {
    VolidsCollected(rows);
    VolidsCollected(SortBy(rows, cmp));
    SortCollects(rows, cmp, VolidOf);
  }

  /** The volumes of the installed rows of a list. */
  ghost function OwnVolids(rows: seq<Row>): multiset<string> {
    multiset(Volids(Installed(rows)))
  }

  lemma {:induction false} VolidsConcat(a: seq<Row>, b: seq<Row>)
    ensures Volids(a + b) == Volids(a) + Volids(b)
  {
    if a == [] {
      assert a + b == b;
    } else {
      assert (a + b)[1..] == a[1..] + b;
      VolidsConcat(a[1..], b);
      ConcatAssociates(if a[0].volid.GetOr("") != "" then [a[0].volid.value] else [], Volids(a[1..]), Volids(b));
    }
  }

  lemma {:induction false} InstalledConcat(a: seq<Row>, b: seq<Row>)
    ensures Installed(a + b) == Installed(a) + Installed(b)
  {
    if a == [] {
      assert a + b == b;
    } else {
      assert (a + b)[1..] == a[1..] + b;
      InstalledConcat(a[1..], b);
      ConcatAssociates(if a[0].installed then [a[0]] else [], Installed(a[1..]), Installed(b));
    }
  }

  lemma OwnVolidsSnoc(rows: seq<Row>, row: Row)
    ensures OwnVolids(rows + [row]) == OwnVolids(rows) + OwnVolids([row])
  {
    InstalledConcat(rows, [row]);
    VolidsConcat(Installed(rows), Installed([row]));
  }

  ghost function GroupVolids(groups: seq<Group>): multiset<string> {
    if groups == [] then multiset{} else OwnVolids(groups[0].rows) + GroupVolids(groups[1..])
  }

  lemma {:induction false} AddToKeepsVolids(groups: seq<Group>, key: string, row: Row)
    ensures GroupVolids(AddTo(groups, key, row)) == GroupVolids(groups) + OwnVolids([row])
  {
    var r := AddTo(groups, key, row);
    if groups == [] {
      assert r[1..] == [];
    } else if groups[0].key == key {
      OwnVolidsSnoc(groups[0].rows, row);
      assert r[1..] == groups[1..];
    } else {
      AddToKeepsVolids(groups[1..], key, row);
      assert r[1..] == AddTo(groups[1..], key, row);
    }
  }

  lemma GroupsOfSnoc(early: seq<Row>, row: Row, keyOf: KeyOf)
    ensures GroupsOf(early + [row], keyOf) == AddTo(GroupsOf(early, keyOf), keyOf(row), row)
  {
    var rows := early + [row];
    assert rows[..|rows| - 1] == early;
  }

  lemma GroupingKeepsMore(early: seq<Row>, row: Row, keyOf: KeyOf)
    requires GroupVolids(GroupsOf(early, keyOf)) == OwnVolids(early)
    ensures GroupVolids(GroupsOf(early + [row], keyOf)) == OwnVolids(early + [row])
  {
    GroupsOfSnoc(early, row, keyOf);
    AddToKeepsVolids(GroupsOf(early, keyOf), keyOf(row), row);
    OwnVolidsSnoc(early, row);
  }

  lemma {:induction false} GroupingKeepsVolids(rows: seq<Row>, keyOf: KeyOf)
    ensures GroupVolids(GroupsOf(rows, keyOf)) == OwnVolids(rows)
    decreases |rows|
  {
    if rows != [] {
      var early := rows[..|rows| - 1];
      GroupingKeepsVolids(early, keyOf);
      GroupingKeepsMore(early, rows[|rows| - 1], keyOf);
      AllButLast(rows);
    }
  }

  lemma AllButLast(rows: seq<Row>)
    requires rows != []
    ensures rows[..|rows| - 1] + [rows[|rows| - 1]] == rows
  {
  }

  function InstalledVolids(p: PackageRow): multiset<string> {
    multiset(p.installedVolids)
  }

  /** The volumes that the lines of a result report. */
  function ReportedVolids(out: seq<PackageRow>): multiset<string> {
    Collected(out, InstalledVolids)
  }

  lemma PackageVolids(key: string, rows: seq<Row>, locale: Locale)
    requires rows != []
    ensures multiset(PackageOf(key, rows, locale).installedVolids) == OwnVolids(rows)
  {
    VolidsOfSorted(Installed(rows), ByVersion(locale));
  }

  lemma {:induction false} ReportedOfGroups(groups: seq<Group>, locale: Locale)
    requires NoneEmpty(groups)
    ensures ReportedVolids(Packages(groups, locale)) == GroupVolids(groups)
  {
    if groups != [] {
      ReportedOfGroups(groups[1..], locale);
      PackageVolids(groups[0].key, groups[0].rows, locale);
      assert Packages(groups, locale)[1..] == Packages(groups[1..], locale);
    }
  }

  /** Every volume of an installed row is reported, as often as it occurs, and no other. */
  lemma VolidsAreConserved(rows: seq<Row>, keyOf: KeyOf, locale: Locale)
    ensures ReportedVolids(Grouped(rows, keyOf, locale)) == OwnVolids(rows)
  {
    GroupsHaveRows(rows, keyOf);
    SortCollects(Packages(GroupsOf(rows, keyOf), locale), ByNeed(locale), InstalledVolids);
    ReportedOfGroups(GroupsOf(rows, keyOf), locale);
    GroupingKeepsVolids(rows, keyOf);
  }

  // ---------- the list ----------

  lemma ByNeedOrders(locale: Locale)
    requires Orders(locale)
    ensures Orders(ByNeed(locale))
  {
    var cmp := ByNeed(locale);
    forall a, b
      ensures cmp(a, b) < 0 <==> cmp(b, a) > 0
    {
      assert locale(a.headline, b.headline) < 0 <==> locale(b.headline, a.headline) > 0;
    }
    forall a, b, c | cmp(a, b) <= 0 && cmp(b, c) <= 0
      ensures cmp(a, c) <= 0
    {
      assert locale(a.headline, b.headline) <= 0 && locale(b.headline, c.headline) <= 0 ==>
          locale(a.headline, c.headline) <= 0;
    }
  }

  lemma {:induction false} PackagesAt(groups: seq<Group>, locale: Locale, i: nat)
    requires NoneEmpty(groups) && i < |groups|
    ensures groups[i].rows != []
    ensures Packages(groups, locale)[i] == PackageOf(groups[i].key, groups[i].rows, locale)
  {
    assert groups[i] in groups;
    if i > 0 {
      PackagesAt(groups[1..], locale, i - 1);
    }
  }

  /** One line for every key, made from the rows with that key. */
  lemma OneLinePerKey(rows: seq<Row>, keyOf: KeyOf, locale: Locale)
    ensures |Grouped(rows, keyOf, locale)| == |FirstKeys(rows, keyOf)|
    ensures forall key :: key in FirstKeys(rows, keyOf) ==>
              && WithKey(rows, keyOf, key) != []
              && PackageOf(key, WithKey(rows, keyOf, key), locale) in Grouped(rows, keyOf, locale)
  {
    GroupsPartition(rows, keyOf);
    GroupsHaveRows(rows, keyOf);
    var groups := GroupsOf(rows, keyOf);
    var packages := Packages(groups, locale);
    SortPermutes(packages, ByNeed(locale));
    forall key | key in FirstKeys(rows, keyOf)
      ensures WithKey(rows, keyOf, key) != []
      ensures PackageOf(key, WithKey(rows, keyOf, key), locale) in Grouped(rows, keyOf, locale)
    {
      var i :| 0 <= i < |groups| && Keys(groups)[i] == key;
      assert groups[i] in groups;
      PackagesAt(groups, locale, i);
      assert packages[i] in packages;
    }
  }

  /** What stands before what: an update, then something installed, then the headline decides. */
  ghost predicate InOrder(a: PackageRow, b: PackageRow, locale: Locale) {
    && (b.updateAvailable ==> a.updateAvailable)
    && (a.updateAvailable == b.updateAvailable && b.installedVersion != "" ==> a.installedVersion != "")
    && (a.updateAvailable == b.updateAvailable && (a.installedVersion != "" <==> b.installedVersion != "") ==>
          locale(a.headline, b.headline) <= 0)
  }

  /** Of any two lines the one that stands first belongs there. */
  lemma LinesAreInOrder(rows: seq<Row>, keyOf: KeyOf, locale: Locale, i: nat, j: nat)
    requires Orders(locale) && i < j < |Grouped(rows, keyOf, locale)|
    ensures InOrder(Grouped(rows, keyOf, locale)[i], Grouped(rows, keyOf, locale)[j], locale)
  {
    GroupsHaveRows(rows, keyOf);
    ByNeedOrders(locale);
    var packages := Packages(GroupsOf(rows, keyOf), locale);
    SortSorts(packages, ByNeed(locale));
    SortedPair(SortBy(packages, ByNeed(locale)), ByNeed(locale), i, j);
  }
}
