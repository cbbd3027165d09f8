/** What an accepted list of apps holds, and what a list is refused for (`lib/suite-embeds.ts`). */
module SuiteLists {
  import opened Text
  import opened SuiteIds
  import opened SuiteApps

  predicate IsBlank(field: Option<string>) {
    field.None? || Trim(field.value) == ""
  }

  /** An element without name and address is passed over. */
  predicate PassedOver(item: Item) {
    item.Item? && IsBlank(item.name) && IsBlank(item.url)
  }

  /** The first of the candidates for a name that is not among the ids. */
  ghost predicate IsFirstFree(id: string, root: string, ids: set<string>) {
    exists n: nat :: IsFreeAt(id, root, ids, n)
  }

  ghost predicate IsFreeAt(id: string, root: string, ids: set<string>, n: nat) {
    && 1 <= n <= MAX_SAFE && id == Candidate(root, n)
    && forall m :: 1 <= m < n ==> Candidate(root, m) in ids
  }

  /** The app that an element stands for, when the apps before it have these ids. */
  ghost predicate Becomes(norm: Normalise, fold: Fold, item: Item, ids: set<string>, app: App) {
    && item.Item? && !IsBlank(item.name) && !IsBlank(item.url)
    && app.name == Trim(item.name.value) && norm(Trim(item.url.value)) == Some(app.url)
    && (app.insecureTls <==> item.insecureTls && "https:" <= app.url)
    && app.id !in ids
    && if IsBlank(item.id) then IsFirstFree(app.id, Root(fold(app.name)), ids)
       else app.id == LowerName(Trim(item.id.value))
  }

  /** What is wrong with an element, when the apps before it have these ids. */
  predicate WrongWith(norm: Normalise, item: Item, ids: set<string>, e: Problem) {
    match e
    case NeedsNameAndAddress => item.NotAnObject?
    case NeedsName =>
      item.Item? && if IsBlank(item.name) then !IsBlank(item.url) else |Trim(item.name.value)| > 48
    case NeedsAddress => Named(item) && IsBlank(item.url)
    case BadAddress => Named(item) && !IsBlank(item.url) && norm(Trim(item.url.value)).None?
    case NeedsOwnName =>
      && Named(item) && !IsBlank(item.url) && norm(Trim(item.url.value)).Some? && !IsBlank(item.id)
      && (!IsId(LowerName(Trim(item.id.value))) || LowerName(Trim(item.id.value)) in ids)
    case _ => false
  }

  predicate Named(item: Item) {
    item.Item? && !IsBlank(item.name) && |Trim(item.name.value)| <= 48
  }

  lemma LowerIsEmptyIff(s: string)
    ensures LowerName(s) == "" <==> s == ""
  {
    assert |LowerName(s)| == |s|;
  }

  /** An element is passed over, or becomes an app, or is complained about. */
  lemma ItemIs(norm: Normalise, fold: Fold, item: Item, taken: set<string>)
    requires |taken| + 2 <= MAX_SAFE
    ensures var r := ParseItem(norm, fold, item, taken);
            match r
            case Err(e) => WrongWith(norm, item, taken, e)
            case Ok(None) => PassedOver(item)
            case Ok(Some(app)) => Becomes(norm, fold, item, taken, app)
  {
    if item.Item? && item.id.Some? {
      LowerIsEmptyIff(Trim(item.id.value));
    }
    if item.Item? && IsBlank(item.id) {
      FreshIsFirstFree(fold(TextOf(item.name)), taken);
    }
  }

  lemma WrongIsRefused(norm: Normalise, fold: Fold, item: Item, taken: set<string>, e: Problem)
    requires |taken| + 2 <= MAX_SAFE && WrongWith(norm, item, taken, e)
    ensures ParseItem(norm, fold, item, taken) == Err(e)
  {
    if item.Item? && item.id.Some? {
      LowerIsEmptyIff(Trim(item.id.value));
    }
  }

  lemma FreshIsFirstFree(folded: string, taken: set<string>)
    requires |taken| + 2 <= MAX_SAFE
    ensures IsFirstFree(FreshId(folded, taken), Root(folded), taken)
  {
    RootIsId(folded);
    assert IsFreeAt(FreshId(folded, taken), Root(folded), taken, FirstFree(Root(folded), taken, 1));
  }

  // ---------- lists ----------

  function Ids(apps: seq<App>): set<string> {
    set app | app in apps :: app.id
  }

  /** Places in order, outside which the elements are passed over. */
  ghost predicate PlacesOf(items: seq<Item>, at: seq<nat>) {
    && (forall k :: 0 <= k < |at| ==> at[k] < |items|)
    && (forall k, l :: 0 <= k < l < |at| ==> at[k] < at[l])
    && (forall i :: 0 <= i < |items| ==> i in at || PassedOver(items[i]))
  }

  ghost predicate BecomesAt(norm: Normalise, fold: Fold, items: seq<Item>, taken: set<string>, apps: seq<App>,
                            at: seq<nat>, k: nat)
  {
    && k < |at| && k < |apps| && at[k] < |items|
    && Becomes(norm, fold, items[at[k]], taken + Ids(apps[..k]), apps[k])
  }

  /** The elements at these places become the apps, in order, and all others are passed over. */
  ghost predicate Matches(norm: Normalise, fold: Fold, items: seq<Item>, taken: set<string>, apps: seq<App>,
                          at: seq<nat>)
  {
    && |at| == |apps| && PlacesOf(items, at)
    && (forall k :: 0 <= k < |at| ==> BecomesAt(norm, fold, items, taken, apps, at, k))
  }

  /** Places, one further on. */
  function Shifted(at: seq<nat>): (r: seq<nat>)
    ensures |r| == |at| && forall k :: 0 <= k < |at| ==> r[k] == at[k] + 1
  {
    seq(|at|, k requires 0 <= k < |at| => at[k] + 1)
  }

  lemma PlacesLater(items: seq<Item>, at: seq<nat>)
    requires items != [] && PlacesOf(items[1..], at)
    ensures PassedOver(items[0]) ==> PlacesOf(items, Shifted(at))
    ensures PlacesOf(items, [0] + Shifted(at))
  {
    var r := Shifted(at);
    forall i | 0 < i < |items|
      ensures i in r || PassedOver(items[i])
    {
      if i - 1 in at {
        var k :| 0 <= k < |at| && at[k] == i - 1;
        assert r[k] == i;
      } else {
        assert items[i] == items[1..][i - 1];
      }
    }
  }

  lemma MatchesSkip(norm: Normalise, fold: Fold, items: seq<Item>, taken: set<string>, apps: seq<App>, at: seq<nat>)
    requires items != [] && PassedOver(items[0]) && Matches(norm, fold, items[1..], taken, apps, at)
    ensures Matches(norm, fold, items, taken, apps, Shifted(at))
  {
    PlacesLater(items, at);
    forall k | 0 <= k < |at|
      ensures BecomesAt(norm, fold, items, taken, apps, Shifted(at), k)
    {
      assert BecomesAt(norm, fold, items[1..], taken, apps, at, k);
      assert items[Shifted(at)[k]] == items[1..][at[k]];
    }
  }

  lemma IdsOfMore(app: App, apps: seq<App>)
    ensures Ids([app] + apps) == {app.id} + Ids(apps)
  {
    forall id | id in Ids(apps)
      ensures id in Ids([app] + apps)
    {
      var a :| a in apps && a.id == id;
      assert a in [app] + apps;
    }
    assert app in [app] + apps;
  }

  lemma IdsShift(taken: set<string>, app: App, apps: seq<App>, k: nat)
    requires k <= |apps|
    ensures taken + Ids(([app] + apps)[..k + 1]) == taken + {app.id} + Ids(apps[..k])
  {
    assert ([app] + apps)[..k + 1] == [app] + apps[..k];
    IdsOfMore(app, apps[..k]);
  }

  lemma BecomesLater(norm: Normalise, fold: Fold, items: seq<Item>, taken: set<string>, app: App, apps: seq<App>,
                     at: seq<nat>, k: nat)
    requires items != [] && BecomesAt(norm, fold, items[1..], taken + {app.id}, apps, at, k)
    ensures BecomesAt(norm, fold, items, taken, [app] + apps, [0] + Shifted(at), k + 1)
  {
    IdsShift(taken, app, apps, k);
    assert ([0] + Shifted(at))[k + 1] == at[k] + 1 && items[at[k] + 1] == items[1..][at[k]];
  }

  lemma MatchesMore(norm: Normalise, fold: Fold, items: seq<Item>, taken: set<string>, app: App, apps: seq<App>,
                    at: seq<nat>)
    requires items != [] && Becomes(norm, fold, items[0], taken, app)
    requires Matches(norm, fold, items[1..], taken + {app.id}, apps, at)
    ensures Matches(norm, fold, items, taken, [app] + apps, [0] + Shifted(at))
  {
    var all, r := [app] + apps, [0] + Shifted(at);
    PlacesLater(items, at);
    assert taken + Ids(all[..0]) == taken;
    forall k | 0 <= k < |r|
      ensures BecomesAt(norm, fold, items, taken, all, r, k)
    {
      if k > 0 {
        BecomesLater(norm, fold, items, taken, app, apps, at, k - 1);
      }
    }
  }

  lemma {:induction false} ItemsMatch(norm: Normalise, fold: Fold, items: seq<Item>, taken: set<string>)
    returns (at: seq<nat>)
    requires |taken| + |items| + 2 <= MAX_SAFE && ParseItems(norm, fold, items, taken).Ok?
    ensures Matches(norm, fold, items, taken, ParseItems(norm, fold, items, taken).value, at)
    decreases |items|
  {
    at := [];
    if items != [] {
      var head := ParseItem(norm, fold, items[0], taken);
      ItemIs(norm, fold, items[0], taken);
      if head.value.None? {
        at := ItemsMatch(norm, fold, items[1..], taken);
        MatchesSkip(norm, fold, items, taken, ParseItems(norm, fold, items, taken).value, at);
        at := Shifted(at);
      } else {
        var app := head.value.value;
        var apps := ParseItems(norm, fold, items[1..], taken + {app.id}).value;
        at := ItemsMatch(norm, fold, items[1..], taken + {app.id});
        MatchesMore(norm, fold, items, taken, app, apps, at);
        at := [0] + Shifted(at);
      }
    }
  }

  /** An accepted list holds one app for every element that is not passed over, in order. */
  lemma AcceptedListIs(norm: Normalise, fold: Fold, value: Value) returns (at: seq<nat>)
    requires Parse(norm, fold, value).Ok?
    ensures value.List? && |value.items| <= 24
    ensures Matches(norm, fold, value.items, {}, Parse(norm, fold, value).value, at)
  {
    at := ItemsMatch(norm, fold, value.items, {});
  }

  /** The elements before place `i` are accepted as these apps, and the one at `i` is wrong. */
  ghost predicate FailsAt(norm: Normalise, fold: Fold, items: seq<Item>, taken: set<string>, e: Problem, i: nat) {
    && i < |items| && |taken| + |items| + 2 <= MAX_SAFE
    && var before := ParseItems(norm, fold, items[..i], taken);
       before.Ok? && WrongWith(norm, items[i], taken + Ids(before.value), e)
  }

  lemma FailsLater(norm: Normalise, fold: Fold, items: seq<Item>, taken: set<string>, e: Problem, i: nat,
                   one: Option<App>)
    requires items != [] && |taken| + |items| + 2 <= MAX_SAFE && ParseItem(norm, fold, items[0], taken) == Ok(one)
    ensures FailsAt(norm, fold, items, taken, e, i + 1) <==>
            FailsAt(norm, fold, items[1..], if one.Some? then taken + {one.value.id} else taken, e, i)
  {
    if i + 1 < |items| {
      PrefixParses(norm, fold, items, taken, i, one);
      if one.Some? {
        var rest := ParseItems(norm, fold, items[1..][..i], taken + {one.value.id});
        if rest.Ok? {
          IdsOfMore(one.value, rest.value);
          assert taken + Ids([one.value] + rest.value) == taken + {one.value.id} + Ids(rest.value);
        }
      }
    }
  }

  lemma PrefixParses(norm: Normalise, fold: Fold, items: seq<Item>, taken: set<string>, i: nat, one: Option<App>)
    requires i < |items| && |taken| + |items| + 2 <= MAX_SAFE && ParseItem(norm, fold, items[0], taken) == Ok(one)
    ensures ParseItems(norm, fold, items[..i + 1], taken) ==
            if one.None? then ParseItems(norm, fold, items[1..][..i], taken)
            else Prepend([one.value], ParseItems(norm, fold, items[1..][..i], taken + {one.value.id}))
  {
    assert items[..i + 1][0] == items[0] && items[..i + 1][1..] == items[1..][..i];
  }

  ghost predicate FailsSomewhere(norm: Normalise, fold: Fold, items: seq<Item>, taken: set<string>, e: Problem) {
    exists i: nat :: FailsAt(norm, fold, items, taken, e, i)
  }

  lemma FailsThereIff(norm: Normalise, fold: Fold, items: seq<Item>, taken: set<string>, e: Problem,
                      one: Option<App>)
    requires items != [] && |taken| + |items| + 2 <= MAX_SAFE && ParseItem(norm, fold, items[0], taken) == Ok(one)
    ensures FailsSomewhere(norm, fold, items, taken, e) <==>
            FailsSomewhere(norm, fold, items[1..], if one.Some? then taken + {one.value.id} else taken, e)
  {
    var next := if one.Some? then taken + {one.value.id} else taken;
    FailsFirst(norm, fold, items, taken, e);
    if i: nat :| FailsAt(norm, fold, items[1..], next, e, i) {
      FailsLater(norm, fold, items, taken, e, i, one);
    }
    if i: nat :| FailsAt(norm, fold, items, taken, e, i) && i > 0 {
      FailsLater(norm, fold, items, taken, e, i - 1, one);
    }
  }

  lemma PrefixFails(norm: Normalise, fold: Fold, items: seq<Item>, taken: set<string>, i: nat)
    requires 0 < i <= |items| && |taken| + |items| + 2 <= MAX_SAFE && ParseItem(norm, fold, items[0], taken).Err?
    ensures ParseItems(norm, fold, items[..i], taken).Err?
  {
    assert items[..i][0] == items[0];
  }

  lemma FailsHereIff(norm: Normalise, fold: Fold, items: seq<Item>, taken: set<string>, e: Problem)
    requires items != [] && |taken| + |items| + 2 <= MAX_SAFE && ParseItem(norm, fold, items[0], taken).Err?
    ensures FailsSomewhere(norm, fold, items, taken, e) <==> ParseItem(norm, fold, items[0], taken) == Err(e)
  {
    FailsFirst(norm, fold, items, taken, e);
    forall i: nat | 0 < i < |items|
      ensures !FailsAt(norm, fold, items, taken, e, i)
    {
      PrefixFails(norm, fold, items, taken, i);
    }
  }

  lemma {:induction false} ItemsFailIff(norm: Normalise, fold: Fold, items: seq<Item>, taken: set<string>, e: Problem)
    requires |taken| + |items| + 2 <= MAX_SAFE
    ensures ParseItems(norm, fold, items, taken) == Err(e) <==> FailsSomewhere(norm, fold, items, taken, e)
    decreases |items|
  {
    if items != [] {
      var head := ParseItem(norm, fold, items[0], taken);
      if head.Ok? {
        FailsThereIff(norm, fold, items, taken, e, head.value);
        ItemsFailIff(norm, fold, items[1..],
                     if head.value.Some? then taken + {head.value.value.id} else taken, e);
      } else {
        FailsHereIff(norm, fold, items, taken, e);
      }
    }
  }

  lemma FailsFirst(norm: Normalise, fold: Fold, items: seq<Item>, taken: set<string>, e: Problem)
    requires items != [] && |taken| + |items| + 2 <= MAX_SAFE
    ensures FailsAt(norm, fold, items, taken, e, 0) <==> ParseItem(norm, fold, items[0], taken) == Err(e)
  {
    assert items[..0] == [] && taken + Ids([]) == taken;
    ItemIs(norm, fold, items[0], taken);
    if WrongWith(norm, items[0], taken, e) {
      WrongIsRefused(norm, fold, items[0], taken, e);
    }
  }

  /** A list is refused for being none, for its length, or for the first element that is wrong. */
  lemma RefusedIff(norm: Normalise, fold: Fold, value: Value, e: Problem)
    ensures Parse(norm, fold, value) == Err(e) <==>
            match value
            case NotAList => e == MustBeAList
            case List(items) =>
              if |items| > 24 then e == TooMany else FailsSomewhere(norm, fold, items, {}, e)
  {
    if value.List? && |value.items| <= 24 {
      ItemsFailIff(norm, fold, value.items, {}, e);
    }
  }

  // ---------- reading the stored list ----------

  /** A stored element that is an app as it should be. */
  predicate IsStored(norm: Normalise, item: Item, app: App) {
    && item.Item? && item.id == Some(app.id) && IsId(app.id)
    && !IsBlank(item.name) && app.name == Trim(item.name.value)
    && !IsBlank(item.url) && norm(Trim(item.url.value)) == Some(app.url)
    && (app.insecureTls <==> item.insecureTls && "https:" <= app.url)
  }

  /** The app is read from the element at place `i`: no element before it holds an app with its id. */
  ghost predicate ReadAt(norm: Normalise, items: seq<Item>, app: App, i: nat) {
    && i < |items| && IsStored(norm, items[i], app)
    && forall j, other :: 0 <= j < i && IsStored(norm, items[j], other) ==> other.id != app.id
  }

  lemma StoredIs(norm: Normalise, item: Item, app: App)
    ensures StoredApp(norm, item) == Some(app) <==> IsStored(norm, item, app)
  {
  }

  ghost predicate ReadFrom(norm: Normalise, items: seq<Item>, seen: set<string>, app: App) {
    app.id !in seen && ReadSomewhere(norm, items, app)
  }

  lemma ReadAtTail(norm: Normalise, items: seq<Item>, app: App, i: nat)
    requires items != []
    ensures ReadAt(norm, items, app, i + 1) <==>
            ReadAt(norm, items[1..], app, i)
            && forall other :: IsStored(norm, items[0], other) ==> other.id != app.id
  {
    if ReadAt(norm, items[1..], app, i) && forall other :: IsStored(norm, items[0], other) ==> other.id != app.id {
      forall j, other | 0 <= j < i + 1 && IsStored(norm, items[j], other)
        ensures other.id != app.id
      {
        assert j > 0 ==> items[j] == items[1..][j - 1];
      }
    }
    if ReadAt(norm, items, app, i + 1) {
      assert IsStored(norm, items[1..][i], app);
      forall j, other | 0 <= j < i && IsStored(norm, items[1..][j], other)
        ensures other.id != app.id
      {
        assert IsStored(norm, items[j + 1], other);
      }
    }
  }

  lemma {:induction false} ReadItemsHolds(norm: Normalise, items: seq<Item>, seen: set<string>, app: App)
    ensures app in ReadItems(norm, items, seen) <==> ReadFrom(norm, items, seen, app)
    decreases |items|
  {
    if items != [] {
      var head := StoredApp(norm, items[0]);
      forall other
        ensures head == Some(other) <==> IsStored(norm, items[0], other)
      {
        StoredIs(norm, items[0], other);
      }
      var next := if head.Some? && head.value.id !in seen then seen + {head.value.id} else seen;
      ReadItemsHolds(norm, items[1..], next, app);
      ReadThereIff(norm, items, app);
    }
  }

  ghost predicate ReadSomewhere(norm: Normalise, items: seq<Item>, app: App) {
    exists i: nat :: ReadAt(norm, items, app, i)
  }

  lemma ReadThereIff(norm: Normalise, items: seq<Item>, app: App)
    requires items != []
    ensures ReadSomewhere(norm, items, app) <==>
            || IsStored(norm, items[0], app)
            || (ReadSomewhere(norm, items[1..], app)
                && forall other :: IsStored(norm, items[0], other) ==> other.id != app.id)
  {
    assert ReadAt(norm, items, app, 0) <==> IsStored(norm, items[0], app);
    if i: nat :| ReadAt(norm, items[1..], app, i) {
      ReadAtTail(norm, items, app, i);
    }
    if i: nat :| ReadAt(norm, items, app, i) && i > 0 {
      ReadAtTail(norm, items, app, i - 1);
    }
  }

  /** What is read of a stored list: of every id the first element that holds an app with it. */
  lemma ReadListHolds(norm: Normalise, items: seq<Item>, app: App)
    ensures app in ReadItems(norm, items, {}) <==> ReadSomewhere(norm, items, app)
  {
    ReadItemsHolds(norm, items, {}, app);
  }
}
