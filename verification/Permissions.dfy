/** Roles, overrides and permission checks (`lib/permissions.ts`). */
module Permissions {
  import opened Text
  import opened GuestScope

  /**
    The tables the code is written against: all permissions in their order, the names of older coarse
    permissions with what they stand for, and the two classes of permissions; `view`, `read` and `write`
    are the permissions of these names of each kind of guest.
  */
  datatype Tables = Tables(all: seq<string>, aliases: map<string, seq<string>>,
                           hostScoped: set<string>, guestActions: map<Kind, set<string>>,
                           view: map<Kind, string>, read: map<Kind, string>, write: map<Kind, string>)

  /** What the tables promise: no old name is a permission, and the guest permissions of a kind are permissions. */
  ghost predicate WellFormed(t: Tables) {
    && (forall p :: p in t.all ==> p !in t.aliases)
    && (forall k: Kind :: k in t.guestActions && k in t.view && k in t.read && k in t.write)
    && (forall k: Kind :: {t.view[k], t.read[k], t.write[k]} <= t.guestActions[k])
    && (forall k: Kind, p :: p in t.guestActions[k] ==> p in t.all)
  }

  // ---------- expanding ----------

  function Extra(t: Tables, raw: string): seq<string> {
    if raw in t.aliases then t.aliases[raw] else []
  }

  function ToSet(s: seq<string>): set<string> {
    set x | x in s
  }

  function Expand(t: Tables, granted: seq<string>): set<string> {
    if granted == [] then {}
    else
      var raw := granted[|granted| - 1];
      Expand(t, granted[..|granted| - 1]) + {raw} + ToSet(Extra(t, raw))
  }

  method ExpandPermissions(t: Tables, granted: seq<string>) returns (out: set<string>)
    ensures out == Expand(t, granted)
  {
    out := {};
    for n := 0 to |granted|
      invariant out == Expand(t, granted[..n])
    {
      assert granted[..n + 1][..n] == granted[..n];
      out := out + {granted[n]};
      var extra := Extra(t, granted[n]);
      ghost var before := out;
      for m := 0 to |extra|
        invariant out == before + ToSet(extra[..m])
      {
        assert extra[..m + 1] == extra[..m] + [extra[m]];
        out := out + {extra[m]};
      }
      assert extra[..|extra|] == extra;
    }
    assert granted[..|granted|] == granted;
  }

  /** Something is granted by its own name or by an old name that stands for it. */
  lemma {:induction false} ExpandIs(t: Tables, granted: seq<string>, p: string)
    ensures p in Expand(t, granted) <==> p in granted || exists raw :: raw in granted && p in Extra(t, raw)
    decreases |granted|
  {
    if granted != [] {
      var n := |granted| - 1;
      ExpandIs(t, granted[..n], p);
      assert granted == granted[..n] + [granted[n]];
      assert forall raw :: raw in granted <==> raw in granted[..n] || raw == granted[n];
    }
  }

  function Sanitize(t: Tables, values: seq<string>): seq<string> {
    var expanded := Expand(t, values);
    Filter(t.all, p => p in expanded)
  }

  predicate HasPermission(t: Tables, granted: seq<string>, required: string) {
    required in Expand(t, granted)
  }

  // ---------- sanitizing ----------

  lemma {:induction false} FilterMembers(items: seq<string>, keep: string -> bool, x: string)
    ensures x in Filter(items, keep) <==> x in items && keep(x)
  {
    if items != [] {
      FilterMembers(items[1..], keep, x);
      assert items == [items[0]] + items[1..];
    }
  }

  lemma SanitizeMembers(t: Tables, values: seq<string>, p: string)
    ensures p in Sanitize(t, values) <==> p in t.all && HasPermission(t, values, p)
  {
    var expanded := Expand(t, values);
    FilterMembers(t.all, q => q in expanded, p);
  }

  /** Sanitizing changes no answer about a permission of the catalog. */
  lemma SanitizeKeepsAnswers(t: Tables, values: seq<string>, p: string)
    requires WellFormed(t) && p in t.all
    ensures HasPermission(t, Sanitize(t, values), p) <==> HasPermission(t, values, p)
  {
    var clean := Sanitize(t, values);
    SanitizeMembers(t, values, p);
    ExpandIs(t, clean, p);
    forall raw | raw in clean
      ensures Extra(t, raw) == []
    {
      SanitizeMembers(t, values, raw);
    }
  }

  /** Sanitizing twice is sanitizing once. */
  lemma SanitizeIdempotent(t: Tables, values: seq<string>)
    requires WellFormed(t)
    ensures Sanitize(t, Sanitize(t, values)) == Sanitize(t, values)
  {
    var once, twice := Expand(t, values), Expand(t, Sanitize(t, values));
    forall p | p in t.all
      ensures (p in twice) == (p in once)
    {
      SanitizeKeepsAnswers(t, values, p);
    }
    FilterAlike(t.all, p => p in twice, p => p in once);
  }

  // ---------- guest permissions ----------

  function Normalized(t: Tables, kind: Kind, granted: seq<string>): set<string>
    requires WellFormed(t)
  {
    var own := (set p | p in Sanitize(t, granted) && p in t.guestActions[kind]) + {t.view[kind]};
    if t.write[kind] in own then own + {t.read[kind]} else own
  }

  /** `normalizeGuestPermissions` */
  function Normalize(t: Tables, kind: Kind, granted: seq<string>): seq<string>
    requires WellFormed(t)
  {
    var out := Normalized(t, kind, granted);
    Filter(t.all, p => p in out)
  }

  lemma NormalizedMembers(t: Tables, kind: Kind, granted: seq<string>, p: string)
    requires WellFormed(t)
    ensures p in Normalize(t, kind, granted) <==> p in Normalized(t, kind, granted)
    ensures p in Normalized(t, kind, granted) ==> p in t.guestActions[kind] && p in t.all
  {
    var out := Normalized(t, kind, granted);
    SanitizeMembers(t, granted, p);
    FilterMembers(t.all, q => q in out, p);
  }

  /** Guest permissions always include seeing the guest, and writing files includes reading them. */
  lemma NormalizeCloses(t: Tables, kind: Kind, granted: seq<string>)
    requires WellFormed(t)
    ensures var r := Normalize(t, kind, granted);
            && t.view[kind] in r
            && (t.write[kind] in r ==> t.read[kind] in r)
            && forall p :: p in r ==> p in t.guestActions[kind]
  {
    NormalizedMembers(t, kind, granted, t.view[kind]);
    NormalizedMembers(t, kind, granted, t.write[kind]);
    NormalizedMembers(t, kind, granted, t.read[kind]);
    forall p | p in Normalize(t, kind, granted)
      ensures p in t.guestActions[kind]
    {
      NormalizedMembers(t, kind, granted, p);
    }
  }

  lemma NormalizedHas(t: Tables, kind: Kind, granted: seq<string>, p: string)
    requires WellFormed(t)
    ensures HasPermission(t, Normalize(t, kind, granted), p) && p in t.all <==> p in Normalized(t, kind, granted)
  {
    var r := Normalize(t, kind, granted);
    NormalizedMembers(t, kind, granted, p);
    ExpandIs(t, r, p);
    forall raw | raw in r
      ensures Extra(t, raw) == []
    {
      NormalizedMembers(t, kind, granted, raw);
    }
  }

  /** Normalizing twice is normalizing once. */
  lemma NormalizeIdempotent(t: Tables, kind: Kind, granted: seq<string>)
    requires WellFormed(t)
    ensures Normalize(t, kind, Normalize(t, kind, granted)) == Normalize(t, kind, granted)
  {
    var r := Normalize(t, kind, granted);
    var once, twice := Normalized(t, kind, granted), Normalized(t, kind, r);
    forall p
      ensures p in twice <==> p in once
    {
      NormalizedHas(t, kind, granted, p);
      SanitizeMembers(t, r, p);
      NormalizedMembers(t, kind, granted, p);
      NormalizedMembers(t, kind, r, p);
      NormalizedHas(t, kind, granted, t.write[kind]);
      SanitizeMembers(t, r, t.write[kind]);
      NormalizedMembers(t, kind, granted, t.write[kind]);
    }
    assert once == twice;
  }

  // ---------- checks for a user ----------

  datatype Holder = Holder(role: seq<string>, hostPermissions: Option<Overrides>, guestPermissions: Option<Overrides>)

  predicate GuestAction(t: Tables, p: string) {
    exists k :: k in t.guestActions && p in t.guestActions[k]
  }

  predicate SomeOverrideHas(t: Tables, m: Option<Overrides>, required: string) {
    m.Some? && exists key :: key in m.value && m.value[key].Some? && HasPermission(t, m.value[key].value, required)
  }

  /** `userHasPermission`; an absent or empty host id is "". */
  function UserHasPermission(t: Tables, holder: Holder, required: string, hostId: string, guest: Option<Guest>): bool {
    if required !in t.hostScoped then HasPermission(t, holder.role, required)
    else
      var onGuest :=
        if guest.Some? && GuestAction(t, required) then Lookup(holder.guestPermissions, GuestKey(guest.value))
        else None;
      if onGuest.Some? then HasPermission(t, onGuest.value, required)
      else if hostId != "" then
        var onHost := Lookup(holder.hostPermissions, hostId);
        HasPermission(t, if onHost.Some? then onHost.value else holder.role, required)
      else
        || HasPermission(t, holder.role, required)
        || SomeOverrideHas(t, holder.hostPermissions, required)
        || SomeOverrideHas(t, holder.guestPermissions, required)
  }

  /** Whatever is granted for a host or a guest is granted without naming either. */
  lemma SpecificImpliesCoarse(t: Tables, holder: Holder, required: string, hostId: string, guest: Option<Guest>)
    requires UserHasPermission(t, holder, required, hostId, guest)
    ensures UserHasPermission(t, holder, required, "", None)
  {
  }

  /** A host no override names. */
  lemma {:induction false} FreshHost(keys: set<string>) returns (hostId: string)
    ensures hostId != "" && hostId !in keys && forall key :: key in keys ==> |key| < |hostId|
    decreases |keys|
  {
    if keys == {} {
      hostId := "h";
    } else {
      var key :| key in keys;
      hostId := FreshHost(keys - {key});
      hostId := hostId + key + "h";
    }
  }

  predicate Overridden(t: Tables, m: Option<Overrides>, key: string, required: string) {
    Lookup(m, key).Some? && HasPermission(t, Lookup(m, key).value, required)
  }

  /** Some check that names a host, with or without a guest, grants it. */
  ghost predicate Witnessed(t: Tables, holder: Holder, required: string) {
    exists hostId, guest :: hostId != "" && UserHasPermission(t, holder, required, hostId, guest)
  }

  ghost predicate HostGrants(t: Tables, holder: Holder, required: string) {
    exists hostId :: hostId != "" && Overridden(t, holder.hostPermissions, hostId, required)
  }

  ghost predicate GuestGrants(t: Tables, holder: Holder, required: string) {
    exists g :: Overridden(t, holder.guestPermissions, GuestKey(g), required)
  }

  /**
    A check with a host can succeed just by the role, by a host's override, or, for actions on guests,
    by a guest's.
  */
  lemma WitnessedIff(t: Tables, holder: Holder, required: string)
    requires required in t.hostScoped
    ensures Witnessed(t, holder, required) <==>
              || HasPermission(t, holder.role, required)
              || HostGrants(t, holder, required)
              || (GuestAction(t, required) && GuestGrants(t, holder, required))
  {
    if Witnessed(t, holder, required) {
      var hostId, guest :| hostId != "" && UserHasPermission(t, holder, required, hostId, guest);
      assert guest.Some? && Overridden(t, holder.guestPermissions, GuestKey(guest.value), required) ==>
          GuestGrants(t, holder, required);
      assert Overridden(t, holder.hostPermissions, hostId, required) ==> HostGrants(t, holder, required);
    }
    if HasPermission(t, holder.role, required) {
      var hostId := FreshHost(if holder.hostPermissions.Some? then holder.hostPermissions.value.Keys else {});
      assert UserHasPermission(t, holder, required, hostId, None);
    }
    if HostGrants(t, holder, required) {
      var hostId :| hostId != "" && Overridden(t, holder.hostPermissions, hostId, required);
      assert UserHasPermission(t, holder, required, hostId, None);
    }
    if GuestAction(t, required) && GuestGrants(t, holder, required) {
      var g :| Overridden(t, holder.guestPermissions, GuestKey(g), required);
      assert UserHasPermission(t, holder, required, "h", Some(g));
    }
  }

  lemma {:induction false} KeysAreGuests(rows: seq<GuestGrant>, key: string)
    requires key in GuestOverrides(rows)
    ensures exists g :: GuestKey(g) == key
    decreases |rows|
  {
    var row := rows[|rows| - 1];
    if row.kind.Some? && GuestKey(Guest(row.hostId, row.kind.value, row.vmid)) == key {
    } else {
      KeysAreGuests(rows[..|rows| - 1], key);
    }
  }

  /** The user of a session. */
  function UserOf(role: seq<string>, hostAccess: seq<HostGrant>, guestAccess: seq<GuestGrant>): Holder {
    var s := SessionOf(hostAccess, guestAccess);
    Holder(role, s.hostPermissions, s.guestPermissions)
  }

  lemma GuestOverridesAreGuests(t: Tables, role: seq<string>, hostAccess: seq<HostGrant>, guestAccess: seq<GuestGrant>,
                                required: string)
    ensures var u := UserOf(role, hostAccess, guestAccess);
            SomeOverrideHas(t, u.guestPermissions, required) <==> GuestGrants(t, u, required)
  {
    var u := UserOf(role, hostAccess, guestAccess);
    if SomeOverrideHas(t, u.guestPermissions, required) {
      var key :| key in u.guestPermissions.value && u.guestPermissions.value[key].Some?
                 && HasPermission(t, u.guestPermissions.value[key].value, required);
      KeysAreGuests(guestAccess, key);
      var g :| GuestKey(g) == key;
      assert Overridden(t, u.guestPermissions, GuestKey(g), required);
    }
  }

  /**
    For a session, what is granted without naming a host is granted for some host or guest, except by an
    override of a guest for something that is no action on guests, and except by an override under the
    empty host id, which no check names.
  */
  lemma CoarseIsWitnessed(t: Tables, role: seq<string>, hostAccess: seq<HostGrant>, guestAccess: seq<GuestGrant>,
                          required: string)
    requires required in t.hostScoped
    ensures var u := UserOf(role, hostAccess, guestAccess);
            UserHasPermission(t, u, required, "", None) <==>
              || Witnessed(t, u, required)
              || Overridden(t, u.hostPermissions, "", required)
              || (!GuestAction(t, required) && GuestGrants(t, u, required))
  {
    var u := UserOf(role, hostAccess, guestAccess);
    WitnessedIff(t, u, required);
    GuestOverridesAreGuests(t, role, hostAccess, guestAccess, required);
    if SomeOverrideHas(t, u.hostPermissions, required) {
      var hostId :| && hostId in u.hostPermissions.value && u.hostPermissions.value[hostId].Some?
                    && HasPermission(t, u.hostPermissions.value[hostId].value, required);
      assert Overridden(t, u.hostPermissions, hostId, required);
    }
  }

  /** An override of one guest for something that is no action on guests: granted, but for no host and no guest. */
  lemma CoarseWithoutWitness(t: Tables, required: string)
    requires required in t.hostScoped && !GuestAction(t, required)
    ensures var u := UserOf([], [], [GuestGrant("h", Some(Vm), 1, [required], true)]);
            UserHasPermission(t, u, required, "", None) && !Witnessed(t, u, required)
  {
    var row := GuestGrant("h", Some(Vm), 1, [required], true);
    var g := Guest("h", Vm, 1);
    var u := UserOf([], [], [row]);
    OneGuest(row, g);
    assert u.guestPermissions.Some? && u.hostPermissions.Some?;
    assert [required][..0] == [];
    assert required in Expand(t, [required]);
    WitnessedIff(t, u, required);
  }

  lemma OneGuest(row: GuestGrant, g: Guest)
    requires Names(row, g) && row.override
    ensures GuestsOf([row]) == [g]
    ensures var m := GuestOverrides([row]); GuestKey(g) in m && m[GuestKey(g)] == Some(row.permissions)
    ensures var m := WithHosts(map[], GuestHostIds([g])); g.hostId in m && forall id :: id in m ==> m[id].None?
  {
    assert [row][..0] == [];
    var ids := GuestHostIds([g]);
    assert ids[..0] == [] && |ids| == 1 && ids[0] == g.hostId;
  }

  /** Every override of a guest holds actions on guests of its kind and nothing else. */
  ghost predicate OnlyGuestActions(t: Tables, guestAccess: seq<GuestGrant>)
    requires WellFormed(t)
  {
    forall row :: row in guestAccess && row.override && row.kind.Some? ==>
      forall p :: p in row.permissions ==> p in t.guestActions[row.kind.value]
  }

  /** What `guestRowsFromInput` stores: overrides are normalized. */
  ghost predicate AllNormalized(t: Tables, guestAccess: seq<GuestGrant>)
    requires WellFormed(t)
  {
    forall row :: row in guestAccess && row.override && row.kind.Some? ==>
      exists granted :: row.permissions == Normalize(t, row.kind.value, granted)
  }

  lemma NormalizedAreGuestActions(t: Tables, guestAccess: seq<GuestGrant>)
    requires WellFormed(t) && AllNormalized(t, guestAccess)
    ensures OnlyGuestActions(t, guestAccess)
  {
    forall row | row in guestAccess && row.override && row.kind.Some?
      ensures forall p :: p in row.permissions ==> p in t.guestActions[row.kind.value]
    {
      var granted :| row.permissions == Normalize(t, row.kind.value, granted);
      NormalizeCloses(t, row.kind.value, granted);
    }
  }

  /** Names of actions on guests grant only themselves. */
  lemma GuestActionsGrantThemselves(t: Tables, kind: Kind, granted: seq<string>, required: string)
    requires WellFormed(t) && forall p :: p in granted ==> p in t.guestActions[kind]
    requires HasPermission(t, granted, required)
    ensures GuestAction(t, required)
  {
    ExpandIs(t, granted, required);
    assert forall raw :: raw in granted ==> raw in t.all && Extra(t, raw) == [];
  }

  /** Then no override of a guest grants anything but actions on guests. */
  lemma GuestGrantsAreGuestActions(t: Tables, role: seq<string>, hostAccess: seq<HostGrant>,
                                   guestAccess: seq<GuestGrant>, required: string)
    requires WellFormed(t) && OnlyGuestActions(t, guestAccess)
    requires GuestGrants(t, UserOf(role, hostAccess, guestAccess), required)
    ensures GuestAction(t, required)
  {
    var u := UserOf(role, hostAccess, guestAccess);
    var g :| Overridden(t, u.guestPermissions, GuestKey(g), required);
    SessionOverride(hostAccess, guestAccess, g);
    LastGrantNames(guestAccess, g);
    var row := LastGrant(guestAccess, g).value;
    GuestActionsGrantThemselves(t, g.kind, row.permissions, required);
  }

  /**
    With grants as they are stored the exception for guests is void: what is granted without naming a
    host is granted for some host or guest, or by an override under the empty host id.
  */
  lemma StoredGrantsAreWitnessed(t: Tables, role: seq<string>, hostAccess: seq<HostGrant>,
                                 guestAccess: seq<GuestGrant>, required: string)
    requires WellFormed(t) && AllNormalized(t, guestAccess) && required in t.hostScoped
    ensures var u := UserOf(role, hostAccess, guestAccess);
            UserHasPermission(t, u, required, "", None) <==>
              Witnessed(t, u, required) || Overridden(t, u.hostPermissions, "", required)
  {
    CoarseIsWitnessed(t, role, hostAccess, guestAccess, required);
    NormalizedAreGuestActions(t, guestAccess);
    if GuestGrants(t, UserOf(role, hostAccess, guestAccess), required) {
      GuestGrantsAreGuestActions(t, role, hostAccess, guestAccess, required);
    }
  }

  /**
    For a session, an action on a guest is decided by the last grant for that very guest if it overrides;
    grants for other guests, whatever their host ids look like, play no part.
  */
  lemma GuestGrantDecides(t: Tables, role: seq<string>, hostAccess: seq<HostGrant>, guestAccess: seq<GuestGrant>,
                          required: string, hostId: string, g: Guest)
    requires required in t.hostScoped && GuestAction(t, required) && Granted(guestAccess, g).Some?
    ensures UserHasPermission(t, UserOf(role, hostAccess, guestAccess), required, hostId, Some(g))
            <==> HasPermission(t, Granted(guestAccess, g).value, required)
  {
    SessionOverride(hostAccess, guestAccess, g);
  }
}
