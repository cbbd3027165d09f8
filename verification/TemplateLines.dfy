/** What a line of `groupTemplatePackages` tells about the rows it was made from (`lib/lxc-templates.ts`). */
module TemplateLines {
  import opened Text
  import opened TemplateVersions
  import opened StableSort
  import opened TemplateGroups

  /** The row comes before none of these: none is newer, and of those as new none has a name behind its own. */
  ghost predicate IsNewest(rows: set<Row>, row: Row, locale: Locale) {
    && row in rows
    && forall r :: r in rows ==>
         Compare(r.version, row.version) <= 0
         && (Compare(r.version, row.version) == 0 ==> locale(r.template, row.template) <= 0)
  }

  /** The first of the two that is not empty. */
  predicate FirstGiven(r: string, a: string, b: string) {
    (a != "" ==> r == a) && (a == "" ==> r == b)
  }

  /** The texts of a line: those of the latest row, and where it has none those of the installed one. */
  predicate TextsFrom(p: PackageRow, latest: Row, package: string, headline: string, section: string,
                      architecture: string)
  {
    && FirstGiven(p.package, latest.package, package)
    && FirstGiven(p.architecture, latest.architecture, architecture)
    && (if latest.headline == "" && headline == "" then p.headline == latest.template
        else FirstGiven(p.headline, latest.headline, headline))
    && (if latest.section == "" && section == "" then p.section == "system"
        else FirstGiven(p.section, latest.section, section))
  }

  /** The line of a package of which nothing is installed. */
  predicate TellsMissing(p: PackageRow, latest: Row) {
    && p.installedVersion == "" && p.installedTemplate == "" && p.installedVolids == [] && !p.updateAvailable
    && TextsFrom(p, latest, "", "", "", "")
  }

  /** The line of a package of which `own` is the newest installed row. */
  predicate TellsInstalled(p: PackageRow, latest: Row, own: Row) {
    && p.installedVersion == own.version && p.installedTemplate == own.template
    && TextsFrom(p, latest, own.package, own.headline, own.section, own.architecture)
    && (p.updateAvailable <==>
          latest.template != "" && latest.template != own.template && Compare(latest.version, own.version) > 0)
  }

  function InstalledOf(rows: set<Row>): set<Row> {
    set r | r in rows && r.installed
  }

  /** What a line tells about the rows of its package. */
  ghost predicate Tells(p: PackageRow, rows: set<Row>, locale: Locale) {
    exists latest ::
      && IsNewest(rows, latest, locale)
      && p.latestVersion == latest.version && p.latestTemplate == latest.template
      && if InstalledOf(rows) == {} then TellsMissing(p, latest)
         else exists own :: IsNewest(InstalledOf(rows), own, locale) && TellsInstalled(p, latest, own)
  }

  function SetOf(rows: seq<Row>): set<Row> {
    set r | r in rows
  }

  lemma NewestOf(rows: seq<Row>, locale: Locale)
    requires Orders(locale) && rows != []
    ensures Newest(rows, locale).Some? && IsNewest(SetOf(rows), Newest(rows, locale).value, locale)
  {
    ByVersionOrders(locale);
    FirstIsLeast(rows, ByVersion(locale));
    var row := Newest(rows, locale).value;
    forall r | r in rows
      ensures Compare(r.version, row.version) <= 0
      ensures Compare(r.version, row.version) == 0 ==> locale(r.template, row.template) <= 0
    {
      assert ByVersion(locale)(row, r) <= 0;
    }
  }

  lemma PackageTexts(key: string, rows: seq<Row>, locale: Locale)
    requires rows != []
    ensures Newest(rows, locale).Some?
    ensures var own := Newest(Installed(rows), locale).GetOr(NO_ROW);
            TextsFrom(PackageOf(key, rows, locale), Newest(rows, locale).value, own.package, own.headline,
                      own.section, own.architecture)
  {
  }

  /** The line made of some rows tells about these rows. */
  lemma PackageTells(key: string, rows: seq<Row>, locale: Locale)
    requires Orders(locale) && rows != []
    ensures Tells(PackageOf(key, rows, locale), SetOf(rows), locale) && PackageOf(key, rows, locale).key == key
  {
    var p, latest := PackageOf(key, rows, locale), Newest(rows, locale).value;
    NewestOf(rows, locale);
    PackageTexts(key, rows, locale);
    InstalledAre(rows);
    assert InstalledOf(SetOf(rows)) == SetOf(Installed(rows));
    if Installed(rows) == [] {
      assert TellsMissing(p, latest);
    } else {
      var own := Newest(Installed(rows), locale).value;
      NewestOf(Installed(rows), locale);
      InstalledTells(key, rows, locale);
      assert own in SetOf(Installed(rows));
    }
  }

  lemma InstalledTells(key: string, rows: seq<Row>, locale: Locale)
    requires rows != [] && Installed(rows) != []
    ensures Newest(rows, locale).Some? && Newest(Installed(rows), locale).Some?
    ensures TellsInstalled(PackageOf(key, rows, locale), Newest(rows, locale).value,
                           Newest(Installed(rows), locale).value)
  {
    PackageTexts(key, rows, locale);
  }

  /** The volumes of a line are those of the installed rows of its package. */
  lemma {:induction false} VolidsAre(rows: seq<Row>, v: string)
    ensures v in Volids(rows) <==> v != "" && exists r :: r in rows && r.volid == Some(v)
  {
    if rows != [] {
      VolidsAre(rows[1..], v);
      HeadAndTail(rows);
    }
  }

  /** The line names the volumes of the installed rows and no other. */
  ghost predicate TellsVolids(p: PackageRow, rows: set<Row>) {
    forall v :: v in p.installedVolids <==> v != "" && exists r :: r in rows && r.installed && r.volid == Some(v)
  }

  lemma PackageTellsVolids(key: string, rows: seq<Row>, locale: Locale)
    requires rows != []
    ensures TellsVolids(PackageOf(key, rows, locale), SetOf(rows))
  {
    var own := SortBy(Installed(rows), ByVersion(locale));
    SortPermutes(Installed(rows), ByVersion(locale));
    InstalledAre(rows);
    forall v
      ensures v in Volids(own) <==> v != "" && exists r :: r in SetOf(rows) && r.installed && r.volid == Some(v)
    {
      VolidsAre(own, v);
    }
  }

  // ---------- all lines ----------

  /** The rows of one package. */
  function RowsOf(rows: seq<Row>, keyOf: KeyOf, key: string): set<Row> {
    set r | r in rows && keyOf(r) == key
  }

  lemma {:induction false} WithKeyAre(rows: seq<Row>, keyOf: KeyOf, key: string)
    ensures SetOf(WithKey(rows, keyOf, key)) == RowsOf(rows, keyOf, key)
    decreases |rows|
  {
    if rows != [] {
      var n := |rows| - 1;
      WithKeyAre(rows[..n], keyOf, key);
      forall r
        ensures r in RowsOf(rows, keyOf, key) <==>
                r in RowsOf(rows[..n], keyOf, key) || (r == rows[n] && keyOf(r) == key)
      {
        assert r in rows <==> r in rows[..n] || r == rows[n] by {
          assert rows == rows[..n] + [rows[n]];
        }
      }
    }
  }

  lemma PackagesTell(rows: seq<Row>, keyOf: KeyOf, locale: Locale, i: nat)
    requires Orders(locale) && i < |GroupsOf(rows, keyOf)|
    ensures NoneEmpty(GroupsOf(rows, keyOf)) && i < |FirstKeys(rows, keyOf)|
    ensures var p := Packages(GroupsOf(rows, keyOf), locale)[i];
            && p.key == FirstKeys(rows, keyOf)[i]
            && Tells(p, RowsOf(rows, keyOf, p.key), locale) && TellsVolids(p, RowsOf(rows, keyOf, p.key))
  {
    var groups := GroupsOf(rows, keyOf);
    GroupsHaveRows(rows, keyOf);
    GroupsPartition(rows, keyOf);
    PackagesAt(groups, locale, i);
    assert groups[i] in groups && Keys(groups)[i] == groups[i].key;
    PackageTells(groups[i].key, groups[i].rows, locale);
    PackageTellsVolids(groups[i].key, groups[i].rows, locale);
    WithKeyAre(rows, keyOf, groups[i].key);
  }

  /** Every line tells about the rows of its package, and every package with a row has its line. */
  lemma LinesTell(rows: seq<Row>, keyOf: KeyOf, locale: Locale)
    requires Orders(locale)
    ensures forall p :: p in Grouped(rows, keyOf, locale) ==>
              Tells(p, RowsOf(rows, keyOf, p.key), locale) && TellsVolids(p, RowsOf(rows, keyOf, p.key))
    ensures forall r :: r in rows ==> exists p :: p in Grouped(rows, keyOf, locale) && p.key == keyOf(r)
  {
    GroupsHaveRows(rows, keyOf);
    GroupsPartition(rows, keyOf);
    FirstKeysAre(rows, keyOf);
    var packages := Packages(GroupsOf(rows, keyOf), locale);
    SortPermutes(packages, ByNeed(locale));
    forall p | p in Grouped(rows, keyOf, locale)
      ensures Tells(p, RowsOf(rows, keyOf, p.key), locale) && TellsVolids(p, RowsOf(rows, keyOf, p.key))
    {
      var i :| 0 <= i < |packages| && packages[i] == p;
      PackagesTell(rows, keyOf, locale, i);
    }
    forall r | r in rows
      ensures exists p :: p in Grouped(rows, keyOf, locale) && p.key == keyOf(r)
    {
      var keys := FirstKeys(rows, keyOf);
      var i :| 0 <= i < |keys| && keys[i] == keyOf(r);
      PackagesTell(rows, keyOf, locale, i);
      assert packages[i] in packages;
    }
  }

  /** An update is only offered to a version that is newer than the one installed. */
  lemma UpdateIsNewer(rows: seq<Row>, keyOf: KeyOf, locale: Locale, p: PackageRow)
    requires Orders(locale) && p in Grouped(rows, keyOf, locale) && p.updateAvailable
    ensures Compare(p.latestVersion, p.installedVersion) > 0
  {
    LinesTell(rows, keyOf, locale);
  }
}
