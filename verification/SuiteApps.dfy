/** Parsing the list of suite apps and reading it back from the settings (`lib/suite-embeds.ts`). */
module SuiteApps {
  import opened Text
  import opened SuiteIds

  const MAX_APPS: nat := 24
  const MAX_NAME: nat := 48

  /** One element of the incoming array; a field that is not a string is `None`. */
  datatype Item =
    | NotAnObject
    | Item(id: Option<string>, name: Option<string>, url: Option<string>, insecureTls: bool)

  datatype Value = NotAList | List(items: seq<Item>)

  datatype App = App(id: string, name: string, url: string, insecureTls: bool)

  datatype Problem = MustBeAList | TooMany | NeedsNameAndAddress | NeedsName | BadAddress | NeedsAddress | NeedsOwnName

  type Answer<T> = Result<T, Problem>

  /** `new URL` with the checks on protocol and credentials: the address in normal form, or a refusal. */
  type Normalise = string -> Option<string>

  /** An address in normal form is tight, not empty, and its own normal form. */
  ghost predicate NormalLaws(norm: Normalise) {
    forall u :: norm(u).Some? ==> norm(u).value != "" && Tight(norm(u).value) && norm(norm(u).value) == norm(u)
  }

  /** Decomposition, removal of marks and lower case, in the name of an app. */
  type Fold = string -> string

  // ---------- parsing ----------

  function TextOf(field: Option<string>): string {
    if field.Some? then Trim(field.value) else ""
  }

  /** The certificate exception is kept for https only. */
  function MakeApp(id: string, name: string, url: string, flag: bool): App {
    App(id, name, url, flag && "https:" <= url)
  }

  /** One element: skipped, an app, or a complaint. */
  function ParseItem(norm: Normalise, fold: Fold, item: Item, taken: set<string>): Answer<Option<App>>
    requires |taken| + 2 <= MAX_SAFE
  {
    if item.NotAnObject? then Err(NeedsNameAndAddress)
    else
      var name, urlText := TextOf(item.name), TextOf(item.url);
      if name == "" && urlText == "" then Ok(None)
      else if name == "" || |name| > MAX_NAME then Err(NeedsName)
      else if urlText == "" then Err(NeedsAddress)
      else
        var url := norm(urlText);
        var given := LowerName(TextOf(item.id));
        if url.None? then Err(BadAddress)
        else if given != "" && (!IsId(given) || given in taken) then Err(NeedsOwnName)
        else
          var id := if given != "" then given else FreshId(fold(name), taken);
          Ok(Some(MakeApp(id, name, url.value, item.insecureTls)))
  }

  function ParseItems(norm: Normalise, fold: Fold, items: seq<Item>, taken: set<string>): Answer<seq<App>>
    requires |taken| + |items| + 2 <= MAX_SAFE
    decreases |items|
  {
    if items == [] then Ok([])
    else
      var head := ParseItem(norm, fold, items[0], taken);
      if head.Err? then Err(head.error)
      else if head.value.None? then ParseItems(norm, fold, items[1..], taken)
      else
        var tail := ParseItems(norm, fold, items[1..], taken + {head.value.value.id});
        if tail.Err? then tail else Ok([head.value.value] + tail.value)
  }

  function Parse(norm: Normalise, fold: Fold, value: Value): Answer<seq<App>> {
    if value.NotAList? then Err(MustBeAList)
    else if |value.items| > MAX_APPS then Err(TooMany)
    else ParseItems(norm, fold, value.items, {})
  }

  method ParseOne(norm: Normalise, fold: Fold, item: Item, taken: set<string>)
    returns (r: Answer<Option<App>>, taken': set<string>)
    requires |taken| + 2 <= MAX_SAFE
    ensures r == ParseItem(norm, fold, item, taken)
    ensures taken' == if r.Ok? && r.value.Some? then taken + {r.value.value.id} else taken
  {
    taken' := taken;
    if item.NotAnObject? {
      return Err(NeedsNameAndAddress), taken;
    }
    var name, urlText := TextOf(item.name), TextOf(item.url);
    if name == "" && urlText == "" {
      return Ok(None), taken;
    }
    if name == "" || |name| > MAX_NAME {
      return Err(NeedsName), taken;
    }
    if urlText == "" {
      return Err(NeedsAddress), taken;
    }
    var url := norm(urlText);
    if url.None? {
      return Err(BadAddress), taken;
    }
    var given := LowerName(TextOf(item.id));
    if given != "" && (!IsId(given) || given in taken) {
      return Err(NeedsOwnName), taken;
    }
    var id := given;
    if given == "" {
      id, taken' := SuiteAppId(fold(name), taken);
    } else {
      taken' := taken + {id};
    }
    r := Ok(Some(MakeApp(id, name, url.value, item.insecureTls)));
  }

  method ParseSuiteApps(norm: Normalise, fold: Fold, value: Value) returns (r: Answer<seq<App>>)
    ensures r == Parse(norm, fold, value)
  {
    if value.NotAList? {
      return Err(MustBeAList);
    }
    if |value.items| > MAX_APPS {
      return Err(TooMany);
    }
    r := ParseAll(norm, fold, value.items);
  }

  function Prepend(apps: seq<App>, tail: Answer<seq<App>>): Answer<seq<App>> {
    if tail.Err? then tail else Ok(apps + tail.value)
  }

  lemma PrependOne(apps: seq<App>, app: App, tail: Answer<seq<App>>)
    ensures Prepend(apps, Prepend([app], tail)) == Prepend(apps + [app], tail)
    ensures Prepend([], tail) == tail
  {
    if tail.Ok? {
      ConcatAssociates(apps, [app], tail.value);
      assert [] + tail.value == tail.value;
    }
  }

  /** What an element puts in front of the rest of the list. */
  lemma ItemsUnfold(norm: Normalise, fold: Fold, items: seq<Item>, taken: set<string>, apps: seq<App>,
                    one: Answer<Option<App>>)
    requires items != [] && |taken| + |items| + 2 <= MAX_SAFE && one == ParseItem(norm, fold, items[0], taken)
    ensures Prepend(apps, ParseItems(norm, fold, items, taken)) ==
            if one.Err? then Err(one.error)
            else if one.value.None? then Prepend(apps, ParseItems(norm, fold, items[1..], taken))
            else Prepend(apps + [one.value.value], ParseItems(norm, fold, items[1..], taken + {one.value.value.id}))
  {
    if one.Ok? && one.value.Some? {
      PrependOne(apps, one.value.value, ParseItems(norm, fold, items[1..], taken + {one.value.value.id}));
    }
  }

  /** The loop over the elements. */
  method ParseAll(norm: Normalise, fold: Fold, items: seq<Item>) returns (r: Answer<seq<App>>)
    requires |items| + 2 <= MAX_SAFE
    ensures r == ParseItems(norm, fold, items, {})
  {
    var apps: seq<App> := [];
    var taken: set<string> := {};
    ghost var whole := ParseItems(norm, fold, items, {});
    assert items[0..] == items;
    PrependNone(whole);
    for n := 0 to |items|
      invariant |taken| <= n
      invariant whole == Prepend(apps, ParseItems(norm, fold, items[n..], taken))
    {
      assert items[n..][1..] == items[n + 1..];
      var one, more := ParseOne(norm, fold, items[n], taken);
      ItemsUnfold(norm, fold, items[n..], taken, apps, one);
      if one.Err? {
        return Err(one.error);
      }
      taken := more;
      if one.value.Some? {
        apps := apps + [one.value.value];
      }
    }
    assert apps + [] == apps;
    r := Ok(apps);
  }

  lemma PrependNone(tail: Answer<seq<App>>)
    ensures Prepend([], tail) == tail
  {
    if tail.Ok? {
      assert [] + tail.value == tail.value;
    }
  }

  // ---------- reading the stored list ----------

  function StoredApp(norm: Normalise, item: Item): Option<App> {
    if item.NotAnObject? || item.id.None? || !IsId(item.id.value) then None
    else if item.name.None? || Trim(item.name.value) == "" then None
    else if item.url.None? || Trim(item.url.value) == "" then None
    else
      var url := norm(Trim(item.url.value));
      if url.None? then None
      else Some(MakeApp(item.id.value, Trim(item.name.value), url.value, item.insecureTls))
  }

  function ReadItems(norm: Normalise, items: seq<Item>, seen: set<string>): seq<App> {
    if items == [] then []
    else
      var app := StoredApp(norm, items[0]);
      if app.None? || app.value.id in seen then ReadItems(norm, items[1..], seen)
      else [app.value] + ReadItems(norm, items[1..], seen + {app.value.id})
  }

  method ReadSuiteEmbeds(norm: Normalise, items: seq<Item>) returns (apps: seq<App>)
    ensures apps == ReadItems(norm, items, {})
  {
    var seen: set<string> := {};
    apps := [];
    assert items[0..] == items;
    for n := 0 to |items|
      invariant apps + ReadItems(norm, items[n..], seen) == ReadItems(norm, items, {})
    {
      assert items[n..][1..] == items[n + 1..];
      var app := StoredApp(norm, items[n]);
      if app.None? || app.value.id in seen {
        continue;
      }
      seen := seen + {app.value.id};
      ConcatAssociates(apps, [app.value], ReadItems(norm, items[n + 1..], seen));
      apps := apps + [app.value];
    }
    assert apps + [] == apps;
  }

  /** An app as it is written to the settings. */
  function Stored(app: App): Item {
    Item(Some(app.id), Some(app.name), Some(app.url), app.insecureTls)
  }

  function StoreAll(apps: seq<App>): seq<Item> {
    seq(|apps|, i requires 0 <= i < |apps| => Stored(apps[i]))
  }

  // ---------- the theorems ----------

  /** An app in the form in which the list keeps it. */
  ghost predicate Proper(norm: Normalise, app: App) {
    && IsId(app.id)
    && app.name != "" && Tight(app.name) && |app.name| <= MAX_NAME
    && app.url != "" && Tight(app.url) && norm(app.url) == Some(app.url)
    && (app.insecureTls ==> "https:" <= app.url)
  }

  /** Proper apps whose ids differ from each other and from those taken. */
  ghost predicate ProperList(norm: Normalise, apps: seq<App>, taken: set<string>) {
    apps != [] ==>
      Proper(norm, apps[0]) && apps[0].id !in taken && ProperList(norm, apps[1..], taken + {apps[0].id})
  }

  lemma ParsedItem(norm: Normalise, fold: Fold, item: Item, taken: set<string>)
    requires NormalLaws(norm) && |taken| + 2 <= MAX_SAFE
    ensures var r := ParseItem(norm, fold, item, taken);
            r.Ok? && r.value.Some? ==> Proper(norm, r.value.value) && r.value.value.id !in taken
  {
    if !item.NotAnObject? && item.name.Some? {
      TrimIsTight(item.name.value);
    }
  }

  lemma {:induction false} ParsedItems(norm: Normalise, fold: Fold, items: seq<Item>, taken: set<string>)
    requires NormalLaws(norm) && |taken| + |items| + 2 <= MAX_SAFE
    ensures var r := ParseItems(norm, fold, items, taken);
            r.Ok? ==> |r.value| <= |items| && ProperList(norm, r.value, taken)
    decreases |items|
  {
    if items != [] {
      var head := ParseItem(norm, fold, items[0], taken);
      ParsedItem(norm, fold, items[0], taken);
      if head.Ok? && head.value.None? {
        ParsedItems(norm, fold, items[1..], taken);
      } else if head.Ok? {
        var next := taken + {head.value.value.id};
        ParsedItems(norm, fold, items[1..], next);
        var tail := ParseItems(norm, fold, items[1..], next);
        if tail.Ok? {
          assert ([head.value.value] + tail.value)[1..] == tail.value;
        }
      }
    }
  }

  lemma StoredReads(norm: Normalise, app: App)
    requires Proper(norm, app)
    ensures StoredApp(norm, Stored(app)) == Some(app)
  {
    TightIsTrimmed(app.name);
    TightIsTrimmed(app.url);
  }

  lemma {:induction false} ProperListReads(norm: Normalise, apps: seq<App>, taken: set<string>)
    requires ProperList(norm, apps, taken)
    ensures ReadItems(norm, StoreAll(apps), taken) == apps
  {
    if apps != [] {
      StoredReads(norm, apps[0]);
      ProperListReads(norm, apps[1..], taken + {apps[0].id});
      assert StoreAll(apps)[1..] == StoreAll(apps[1..]);
    }
  }

  lemma {:induction false} ProperListDistinct(norm: Normalise, apps: seq<App>, taken: set<string>, i: nat, j: nat)
    requires ProperList(norm, apps, taken) && i < j < |apps|
    ensures apps[i].id != apps[j].id
  {
    if i == 0 {
      LaterNotTaken(norm, apps[1..], taken + {apps[0].id}, j - 1);
    } else {
      ProperListDistinct(norm, apps[1..], taken + {apps[0].id}, i - 1, j - 1);
    }
  }

  lemma {:induction false} LaterNotTaken(norm: Normalise, apps: seq<App>, taken: set<string>, j: nat)
    requires ProperList(norm, apps, taken) && j < |apps|
    ensures Proper(norm, apps[j]) && apps[j].id !in taken
  {
    if j > 0 {
      LaterNotTaken(norm, apps[1..], taken + {apps[0].id}, j - 1);
    }
  }

  /**
    Every accepted list has at most 24 apps with distinct well-formed ids, and is what the reader
    finds after it has been stored.
  */
  lemma AcceptedListsReadBack(norm: Normalise, fold: Fold, value: Value)
    requires NormalLaws(norm)
    ensures var r := Parse(norm, fold, value);
            r.Ok? ==>
              && |r.value| <= MAX_APPS
              && (forall i :: 0 <= i < |r.value| ==> Proper(norm, r.value[i]))
              && (forall i, j :: 0 <= i < j < |r.value| ==> r.value[i].id != r.value[j].id)
              && ReadItems(norm, StoreAll(r.value), {}) == r.value
  {
    var r := Parse(norm, fold, value);
    if r.Ok? {
      ParsedItems(norm, fold, value.items, {});
      forall i | 0 <= i < |r.value|
        ensures Proper(norm, r.value[i])
      {
        LaterNotTaken(norm, r.value, {}, i);
      }
      forall i, j | 0 <= i < j < |r.value|
        ensures r.value[i].id != r.value[j].id
      {
        ProperListDistinct(norm, r.value, {}, i, j);
      }
      ProperListReads(norm, r.value, {});
    }
  }
}
