/** Which list of permissions decides a check (`lib/permissions.ts`). */
module PermissionChecks {
  import opened Text
  import opened GuestScope
  import opened Permissions
  import opened PermissionTables

  /** A permission stands in a list by its own name or by an older name for it. */
  predicate StandsIn(t: Tables, granted: seq<string>, p: string) {
    p in granted || exists raw :: raw in granted && raw in t.aliases && p in t.aliases[raw]
  }

  lemma StandsIffHas(t: Tables, granted: seq<string>, p: string)
    ensures HasPermission(t, granted, p) <==> StandsIn(t, granted, p)
  {
    ExpandIs(t, granted, p);
    if raw :| raw in granted && p in Extra(t, raw) {
      assert raw in t.aliases && p in t.aliases[raw];
    }
    if raw :| raw in granted && raw in t.aliases && p in t.aliases[raw] {
      assert p in Extra(t, raw);
    }
  }

  // ---------- what is not tied to a host ----------

  /** A permission that is not tied to a host is asked of the role, whatever else there is. */
  lemma GlobalAsksRole(t: Tables, u: Holder, required: string, hostId: string, guest: Option<Guest>)
    requires required !in t.hostScoped
    ensures UserHasPermission(t, u, required, hostId, guest) <==> StandsIn(t, u.role, required)
  {
    StandsIffHas(t, u.role, required);
  }

  predicate IsGlobal(g: Group, action: string) {
    match g
    case Proxora => true
    case Users => true
    case Roles => true
    case Audit => true
    case Settings => true
    case Peers => true
    case Notifications => true
    case Hosts => action == "create"
    case _ => false
  }

  lemma InGroupIff(g: Group, a: string, h: Group)
    requires a in Actions(g)
    ensures Spelled(g, a) in InGroup(h) <==> g == h
  {
    if Spelled(g, a) in InGroup(h) {
      var b :| b in Actions(h) && Spelled(g, a) == Spelled(h, b);
      SpelledApart(g, a, h, b);
    }
  }

  predicate Scoped(g: Group) {
    g == Hosts || g == Vms || g == Lxcs || g == Storage || g == Zfs || g == Backup || g == Updates || g == Tasks
  }

  lemma HostScopedIs(p: string)
    ensures p in HostScoped() <==> p != Spelled(Hosts, "create") && exists h :: Scoped(h) && p in InGroup(h)
  {
    var create := Spelled(Hosts, "create");
    forall h: Group | h != Hosts
      ensures create !in InGroup(h)
    {
      assert Actions(Hosts)[1] == "create";
      InGroupIff(Hosts, "create", h);
    }
  }

  /** Which permissions of the program are tied to a host. */
  lemma HostScopedIff(groups: seq<Group>, g: Group, a: string)
    requires a in Actions(g)
    ensures Spelled(g, a) in TablesOf(groups).hostScoped <==> !IsGlobal(g, a)
  {
    var p := Spelled(g, a);
    HostScopedIs(p);
    InGroupIff(g, a, g);
    if h :| Scoped(h) && p in InGroup(h) {
      InGroupIff(g, a, h);
    }
    CreateIsOne(g, a);
    IsGlobalIff(g, a);
  }

  lemma CreateIsOne(g: Group, a: string)
    ensures Spelled(g, a) == Spelled(Hosts, "create") <==> g == Hosts && a == "create"
  {
    if Spelled(g, a) == Spelled(Hosts, "create") {
      SpelledApart(g, a, Hosts, "create");
    }
  }

  lemma IsGlobalIff(g: Group, a: string)
    ensures IsGlobal(g, a) <==> !Scoped(g) || (g == Hosts && a == "create")
  {
  }

  /** Users, roles, settings and the like always use the role. */
  lemma GlobalGroupsAskRole(u: Holder, g: Group, a: string, hostId: string, guest: Option<Guest>)
    requires a in Actions(g) && IsGlobal(g, a)
    ensures var t := TablesOf(GROUPS);
            UserHasPermission(t, u, Spelled(g, a), hostId, guest) <==> StandsIn(t, u.role, Spelled(g, a))
  {
    HostScopedIff(GROUPS, g, a);
    GlobalAsksRole(TablesOf(GROUPS), u, Spelled(g, a), hostId, guest);
  }

  // ---------- what is tied to a host ----------

  /** An override for the guest is in force: then it decides, and neither the role nor the host's does. */
  lemma GuestOverrideDecides(t: Tables, u: Holder, required: string, hostId: string, g: Guest, granted: seq<string>)
    requires required in t.hostScoped && GuestAction(t, required)
    requires u.guestPermissions.Some? && GuestKey(g) in u.guestPermissions.value
    requires u.guestPermissions.value[GuestKey(g)] == Some(granted)
    ensures UserHasPermission(t, u, required, hostId, Some(g)) <==> StandsIn(t, granted, required)
  {
    StandsIffHas(t, granted, required);
  }

  /** No override for the guest matters to the check. */
  predicate NoGuestOverride(t: Tables, u: Holder, required: string, guest: Option<Guest>) {
    || guest.None? || !GuestAction(t, required) || u.guestPermissions.None?
    || GuestKey(guest.value) !in u.guestPermissions.value || u.guestPermissions.value[GuestKey(guest.value)].None?
  }

  /** An override for the host is in force, and none for the guest: then it decides, and the role does not. */
  lemma HostOverrideDecides(t: Tables, u: Holder, required: string, hostId: string, guest: Option<Guest>,
                            granted: seq<string>)
    requires required in t.hostScoped && hostId != "" && NoGuestOverride(t, u, required, guest)
    requires u.hostPermissions.Some? && hostId in u.hostPermissions.value
    requires u.hostPermissions.value[hostId] == Some(granted)
    ensures UserHasPermission(t, u, required, hostId, guest) <==> StandsIn(t, granted, required)
  {
    StandsIffHas(t, granted, required);
  }

  /** No override is in force: then the role decides. */
  lemma RoleDecides(t: Tables, u: Holder, required: string, hostId: string, guest: Option<Guest>)
    requires required in t.hostScoped && hostId != "" && NoGuestOverride(t, u, required, guest)
    requires u.hostPermissions.Some? && hostId in u.hostPermissions.value ==>
               u.hostPermissions.value[hostId].None?
    ensures UserHasPermission(t, u, required, hostId, guest) <==> StandsIn(t, u.role, required)
  {
    StandsIffHas(t, u.role, required);
  }

  predicate SomeStandsIn(t: Tables, m: Option<Overrides>, required: string) {
    m.Some? && exists key :: key in m.value && m.value[key].Some? && StandsIn(t, m.value[key].value, required)
  }

  lemma SomeStandsIffHas(t: Tables, m: Option<Overrides>, required: string)
    ensures SomeOverrideHas(t, m, required) <==> SomeStandsIn(t, m, required)
  {
    if SomeOverrideHas(t, m, required) {
      var key :| key in m.value && m.value[key].Some? && HasPermission(t, m.value[key].value, required);
      StandsIffHas(t, m.value[key].value, required);
    }
    if SomeStandsIn(t, m, required) {
      var key :| key in m.value && m.value[key].Some? && StandsIn(t, m.value[key].value, required);
      StandsIffHas(t, m.value[key].value, required);
    }
  }

  /** Neither a host nor a guest is named: any list that holds it will do. */
  lemma AnyListWillDo(t: Tables, u: Holder, required: string)
    requires required in t.hostScoped
    ensures UserHasPermission(t, u, required, "", None) <==>
            || StandsIn(t, u.role, required)
            || SomeStandsIn(t, u.hostPermissions, required)
            || SomeStandsIn(t, u.guestPermissions, required)
  {
    StandsIffHas(t, u.role, required);
    SomeStandsIffHas(t, u.hostPermissions, required);
    SomeStandsIffHas(t, u.guestPermissions, required);
  }

  /** Who is granted something holds it in some list: nothing is granted that nobody has given. */
  lemma NothingFromNothing(t: Tables, u: Holder, required: string, hostId: string, guest: Option<Guest>)
    requires UserHasPermission(t, u, required, hostId, guest)
    ensures || StandsIn(t, u.role, required)
            || SomeStandsIn(t, u.hostPermissions, required)
            || SomeStandsIn(t, u.guestPermissions, required)
  {
    if required !in t.hostScoped {
      GlobalAsksRole(t, u, required, hostId, guest);
    } else {
      SpecificImpliesCoarse(t, u, required, hostId, guest);
      AnyListWillDo(t, u, required);
    }
  }

  // ---------- the same for a session ----------

  /** The last grant that names the host. */
  function LastHostGrant(rows: seq<HostGrant>, hostId: string): Option<HostGrant> {
    if rows == [] then None
    else
      var row := rows[|rows| - 1];
      if row.hostId == hostId then Some(row) else LastHostGrant(rows[..|rows| - 1], hostId)
  }

  lemma {:induction false} HostOverridesAre(rows: seq<HostGrant>, hostId: string)
    ensures var m, last := HostOverrides(rows), LastHostGrant(rows, hostId);
            if last.None? then hostId !in m
            else
              hostId in m && m[hostId] == if last.value.override then Some(last.value.permissions) else None
    decreases |rows|
  {
    if rows != [] {
      HostOverridesAre(rows[..|rows| - 1], hostId);
    }
  }

  lemma {:induction false} WithHostsKeeps(m: Overrides, ids: seq<string>, hostId: string)
    ensures var w := WithHosts(m, ids);
            if hostId in m then hostId in w && w[hostId] == m[hostId] else hostId in w ==> w[hostId] == None
    decreases |ids|
  {
    if ids != [] {
      WithHostsKeeps(m, ids[..|ids| - 1], hostId);
    }
  }

  /** A session overrides the permissions on a host exactly as the last grant for that very host says. */
  lemma SessionHostOverride(hostAccess: seq<HostGrant>, guestAccess: seq<GuestGrant>, hostId: string)
    ensures var last := LastHostGrant(hostAccess, hostId);
            Lookup(SessionOf(hostAccess, guestAccess).hostPermissions, hostId) ==
              if last.Some? && last.value.override then Some(last.value.permissions) else None
  {
    HostOverridesAre(hostAccess, hostId);
    WithHostsKeeps(HostOverrides(hostAccess), GuestHostIds(GuestsOf(guestAccess)), hostId);
  }

  /** For a session, what is tied to a host is decided by the last grant for that very host if it overrides. */
  lemma HostGrantDecides(t: Tables, role: seq<string>, hostAccess: seq<HostGrant>, guestAccess: seq<GuestGrant>,
                         required: string, hostId: string, guest: Option<Guest>)
    requires required in t.hostScoped && hostId != ""
    requires guest.Some? && GuestAction(t, required) ==> Granted(guestAccess, guest.value).None?
    ensures var last := LastHostGrant(hostAccess, hostId);
            UserHasPermission(t, UserOf(role, hostAccess, guestAccess), required, hostId, guest) <==>
              StandsIn(t, if last.Some? && last.value.override then last.value.permissions else role, required)
  {
    SessionHostOverride(hostAccess, guestAccess, hostId);
    if guest.Some? {
      SessionOverride(hostAccess, guestAccess, guest.value);
    }
    var last := LastHostGrant(hostAccess, hostId);
    StandsIffHas(t, if last.Some? && last.value.override then last.value.permissions else role, required);
  }

  /** A user reaches the hosts of the host grants; without any those of the guest grants; without any all. */
  lemma SessionReachesHost(hostAccess: seq<HostGrant>, guestAccess: seq<GuestGrant>, hostId: string)
    ensures CanAccessHost(SessionOf(hostAccess, guestAccess).scope, hostId) <==>
              if hostAccess != [] then exists h :: h in hostAccess && h.hostId == hostId
              else GuestsOf(guestAccess) != [] ==> exists g :: SomeNames(guestAccess, g) && g.hostId == hostId
  {
    var guests := GuestsOf(guestAccess);
    HostIdsAre(hostAccess, hostId);
    assert hostAccess != [] ==> HostIds(hostAccess) != [];
    assert guests != [] ==> GuestHostIds(guests) != [];
    if i :| 0 <= i < |guests| && guests[i].hostId == hostId {
      GuestsAreNamed(guestAccess, guests[i]);
      assert GuestHostIds(guests)[i] == hostId;
    }
    if g :| SomeNames(guestAccess, g) && g.hostId == hostId {
      GuestsAreNamed(guestAccess, g);
      var i :| 0 <= i < |guests| && guests[i] == g;
      assert GuestHostIds(guests)[i] == hostId;
    }
  }
}
