/** The tables of `lib/permissions.ts`: the permissions, the older names, and the classes. */
module PermissionTables {
  import opened Text
  import opened GuestScope
  import opened Permissions

  /** What stands before the first dot of a name. */
  datatype Group =
    | Hosts | Vms | Lxcs | Storage | Zfs | Backup | Updates | Proxora | Users | Roles | Audit | Tasks | Settings
    | Peers | Notifications

  function Prefix(g: Group): string {
    match g
    case Hosts => "hosts"
    case Vms => "vm"
    case Lxcs => "lxc"
    case Storage => "storage"
    case Zfs => "zfs"
    case Backup => "backup"
    case Updates => "updates"
    case Proxora => "proxora"
    case Users => "users"
    case Roles => "roles"
    case Audit => "audit"
    case Tasks => "tasks"
    case Settings => "settings"
    case Peers => "peers"
    case Notifications => "notifications"
  }

  const GROUPS: seq<Group> :=
    [Hosts, Vms, Lxcs, Storage, Zfs, Backup, Updates, Proxora, Users, Roles, Audit, Tasks, Settings, Peers,
     Notifications]

  /** The permissions of a group, behind the dot, in their order. */
  function Actions(g: Group): seq<string> {
    match g
    case Hosts => ["view", "create", "update", "credentials", "delete", "reboot", "shutdown", "console"]
    case Vms =>
      ["view", "create", "config", "delete", "start", "shutdown", "force-stop", "reboot", "reset", "pause", "resume",
       "console", "files.read", "files.write", "snapshot.create", "snapshot.delete", "snapshot.rollback", "clone",
       "migrate"]
    case Lxcs =>
      ["view", "create", "config", "delete", "start", "shutdown", "force-stop", "reboot", "console", "files.read",
       "files.write", "snapshot.create", "snapshot.delete", "snapshot.rollback", "clone", "migrate"]
    case Storage => ["view", "delete"]
    case Zfs => ["view"]
    case Backup => ["view", "run", "restore", "delete", "job.create", "job.update", "job.delete"]
    case Updates => ["view", "check", "upgrade"]
    case Proxora => ["update"]
    case Users => ["view", "create", "update", "delete"]
    case Roles => ["view", "create", "update", "delete"]
    case Audit => ["view"]
    case Tasks => ["view", "cancel"]
    case Settings => ["view", "update"]
    case Peers => ["manage"]
    case Notifications => ["view", "create", "update", "delete"]
  }

  /** The older names of a group, behind the dot. */
  function OldActions(g: Group): seq<string> {
    match g
    case Hosts => ["edit"]
    case Vms => ["edit", "files", "stop", "snapshot"]
    case Lxcs => ["edit", "files", "stop", "snapshot"]
    case Updates => ["execute"]
    case Storage => ["manage"]
    case Zfs => ["manage"]
    case Backup => ["manage"]
    case Users => ["manage"]
    case Roles => ["manage"]
    case Settings => ["manage"]
    case _ => []
  }

  function Spelled(g: Group, action: string): string {
    Prefix(g) + ['.'] + action
  }

  function Names(g: Group, actions: seq<string>): (r: seq<string>)
    ensures |r| == |actions|
  {
    seq(|actions|, i requires 0 <= i < |actions| => Spelled(g, actions[i]))
  }

  /** `PERMISSIONS`, as far as these groups go. */
  function AllOf(groups: seq<Group>): seq<string> {
    if groups == [] then [] else Names(groups[0], Actions(groups[0])) + AllOf(groups[1..])
  }

  /** What the older names at the given places of the group's list stand for. */
  function Targets(g: Group, i: nat): seq<string> {
    match g
    case Hosts => Names(g, ["update", "credentials"])
    case Storage => Names(g, ["view", "delete"])
    case Zfs => Names(g, ["view"])
    case Backup => Names(g, ["run", "restore", "delete", "job.create", "job.update", "job.delete"])
    case Updates => Names(g, ["check", "upgrade"]) + Names(Proxora, ["update"])
    case Users => Names(g, ["create", "update", "delete"])
    case Roles => Names(g, ["create", "update", "delete"])
    case Settings => Names(g, ["update"]) + Names(Notifications, ["view", "create", "update", "delete"])
    case _ =>
      if i == 0 then Names(g, ["config"])
      else if i == 1 then Names(g, ["files.read", "files.write"])
      else if i == 2 then
        Names(g, if g == Vms then ["force-stop", "shutdown", "reboot", "reset", "pause", "resume"]
                 else ["force-stop", "shutdown", "reboot"])
      else Names(g, ["snapshot.create", "snapshot.delete", "snapshot.rollback"])
  }

  function GroupAliases(g: Group, n: nat): map<string, seq<string>>
    requires n <= |OldActions(g)|
  {
    if n == 0 then map[] else GroupAliases(g, n - 1)[Spelled(g, OldActions(g)[n - 1]) := Targets(g, n - 1)]
  }

  /** `LEGACY_PERMISSION_ALIASES`, as far as these groups go. */
  function Aliases(groups: seq<Group>): map<string, seq<string>> {
    if groups == [] then map[] else GroupAliases(groups[0], |OldActions(groups[0])|) + Aliases(groups[1..])
  }

  function GroupOf(k: Kind): Group {
    if k == Vm then Vms else Lxcs
  }

  /** `isGuestActionPermission`, by the kind of guest. */
  function GuestActions(k: Kind): set<string> {
    set a | a in Actions(GroupOf(k)) && a != "create" :: Spelled(GroupOf(k), a)
  }

  function InGroup(g: Group): set<string> {
    set a | a in Actions(g) :: Spelled(g, a)
  }

  /** `isHostScopedPermission` */
  function HostScoped(): set<string> {
    InGroup(Hosts) - {Spelled(Hosts, "create")} + InGroup(Vms) + InGroup(Lxcs) + InGroup(Storage) + InGroup(Zfs)
    + InGroup(Backup) + InGroup(Updates) + InGroup(Tasks)
  }

  function ForKinds(action: string): map<Kind, string> {
    map[Vm := Spelled(Vms, action), Lxc := Spelled(Lxcs, action)]
  }

  function TablesOf(groups: seq<Group>): Tables {
    Tables(AllOf(groups), Aliases(groups), HostScoped(), map[Vm := GuestActions(Vm), Lxc := GuestActions(Lxc)],
           ForKinds("view"), ForKinds("files.read"), ForKinds("files.write"))
  }

  // ---------- names are told apart ----------

  function Length(g: Group): nat {
    match g
    case Vms => 2
    case Lxcs => 3
    case Zfs => 3
    case Backup => 6
    case Storage => 7
    case Updates => 7
    case Proxora => 7
    case Settings => 8
    case Notifications => 13
    case _ => 5
  }

  function First(g: Group): char {
    match g
    case Hosts => 'h'
    case Vms => 'v'
    case Lxcs => 'l'
    case Storage => 's'
    case Zfs => 'z'
    case Backup => 'b'
    case Updates => 'u'
    case Proxora => 'p'
    case Users => 'u'
    case Roles => 'r'
    case Audit => 'a'
    case Tasks => 't'
    case Settings => 's'
    case Peers => 'p'
    case Notifications => 'n'
  }

  lemma PrefixShape(g: Group)
    ensures |Prefix(g)| == Length(g) && Prefix(g)[0] == First(g) && '.' !in Prefix(g)
  {
  }

  lemma CutAtDot(p: string, a: string)
    requires '.' !in p
    ensures var s := p + ['.'] + a; IndexOf(s, '.') == |p| && s[..|p|] == p && s[|p| + 1..] == a
  {
    IndexOfFirst(p, '.', a);
  }

  lemma SpelledApart(g: Group, a: string, h: Group, b: string)
    requires Spelled(g, a) == Spelled(h, b)
    ensures g == h && a == b
  {
    PrefixShape(g);
    PrefixShape(h);
    CutAtDot(Prefix(g), a);
    CutAtDot(Prefix(h), b);
  }

  lemma OldVmsAreNotNew()
    ensures forall b :: b in OldActions(Vms) ==> b !in Actions(Vms)
  {
  }

  lemma OldLxcsAreNotNew()
    ensures forall b :: b in OldActions(Lxcs) ==> b !in Actions(Lxcs)
  {
  }

  lemma OthersAreNotNew(g: Group)
    requires g != Vms && g != Lxcs
    ensures forall b :: b in OldActions(g) ==> b !in Actions(g)
  {
  }

  lemma OldIsNotNew(g: Group, b: string)
    requires b in OldActions(g)
    ensures b !in Actions(g)
  {
    if g == Vms {
      OldVmsAreNotNew();
    } else if g == Lxcs {
      OldLxcsAreNotNew();
    } else {
      OthersAreNotNew(g);
    }
  }

  // ---------- what is in the tables ----------

  lemma NamesAre(g: Group, actions: seq<string>, p: string)
    ensures p in Names(g, actions) <==> exists a :: a in actions && p == Spelled(g, a)
  {
    if a :| a in actions && p == Spelled(g, a) {
      var i :| 0 <= i < |actions| && actions[i] == a;
      assert Names(g, actions)[i] == p;
    }
  }

  lemma {:induction false} AllAre(groups: seq<Group>, p: string)
    ensures p in AllOf(groups) <==> exists g, a :: g in groups && a in Actions(g) && p == Spelled(g, a)
  {
    if groups != [] {
      AllAre(groups[1..], p);
      NamesAre(groups[0], Actions(groups[0]), p);
      assert groups == [groups[0]] + groups[1..];
    }
  }

  lemma {:induction false} GroupAliasesAre(g: Group, n: nat, p: string)
    requires n <= |OldActions(g)| && p in GroupAliases(g, n)
    ensures exists b :: b in OldActions(g) && p == Spelled(g, b)
    decreases n
  {
    if p == Spelled(g, OldActions(g)[n - 1]) {
      assert OldActions(g)[n - 1] in OldActions(g);
    } else {
      GroupAliasesAre(g, n - 1, p);
    }
  }

  lemma {:induction false} AliasesAre(groups: seq<Group>, p: string)
    requires p in Aliases(groups)
    ensures exists g, b :: b in OldActions(g) && p == Spelled(g, b)
  {
    if p in Aliases(groups[1..]) {
      AliasesAre(groups[1..], p);
    } else {
      GroupAliasesAre(groups[0], |OldActions(groups[0])|, p);
    }
  }

  /** No older name is a permission. */
  lemma OldNamesAreNoPermissions(groups: seq<Group>, p: string)
    requires p in AllOf(groups)
    ensures p !in Aliases(groups)
  {
    AllAre(groups, p);
    var g, a :| g in groups && a in Actions(g) && p == Spelled(g, a);
    if p in Aliases(groups) {
      AliasesAre(groups, p);
      var h, b :| b in OldActions(h) && p == Spelled(h, b);
      SpelledApart(g, a, h, b);
      OldIsNotNew(g, a);
    }
  }

  lemma GuestActionHas(k: Kind, i: nat, a: string)
    requires i < |Actions(GroupOf(k))| && Actions(GroupOf(k))[i] == a && a != "create"
    ensures Spelled(GroupOf(k), a) in GuestActions(k)
  {
    assert a in Actions(GroupOf(k));
  }

  lemma GuestActionsHold(k: Kind)
    ensures Spelled(GroupOf(k), "view") in GuestActions(k)
    ensures Spelled(GroupOf(k), "files.read") in GuestActions(k)
    ensures Spelled(GroupOf(k), "files.write") in GuestActions(k)
  {
    GuestActionHas(k, 0, "view");
    GuestActionHas(k, if k == Vm then 12 else 9, "files.read");
    GuestActionHas(k, if k == Vm then 13 else 10, "files.write");
  }

  lemma GuestActionsAre(groups: seq<Group>, k: Kind, p: string)
    requires GroupOf(k) in groups && p in GuestActions(k)
    ensures p in AllOf(groups)
  {
    AllAre(groups, p);
  }

  /** What a kind of guest needs of the tables. */
  ghost predicate KindFits(t: Tables, k: Kind) {
    && k in t.guestActions && k in t.view && k in t.read && k in t.write
    && t.view[k] in t.guestActions[k] && t.read[k] in t.guestActions[k] && t.write[k] in t.guestActions[k]
    && forall p :: p in t.guestActions[k] ==> p in t.all
  }

  lemma WellFormedByKind(t: Tables)
    requires forall p :: p in t.all ==> p !in t.aliases
    requires KindFits(t, Vm) && KindFits(t, Lxc)
    ensures WellFormed(t)
  {
    forall k: Kind
      ensures k in t.guestActions && k in t.view && k in t.read && k in t.write
      ensures {t.view[k], t.read[k], t.write[k]} <= t.guestActions[k]
      ensures forall p :: p in t.guestActions[k] ==> p in t.all
    {
      assert KindFits(t, if k.Vm? then Vm else Lxc);
    }
  }

  lemma KindOfTables(groups: seq<Group>, k: Kind)
    requires GroupOf(k) in groups
    ensures KindFits(TablesOf(groups), k)
  {
    GuestActionsHold(k);
    forall p | p in GuestActions(k)
      ensures p in AllOf(groups)
    {
      GuestActionsAre(groups, k, p);
    }
  }

  lemma TablesOfAreWellFormed(groups: seq<Group>)
    requires Vms in groups && Lxcs in groups
    ensures WellFormed(TablesOf(groups))
  {
    forall p | p in AllOf(groups)
      ensures p !in Aliases(groups)
    {
      OldNamesAreNoPermissions(groups, p);
    }
    KindOfTables(groups, Vm);
    KindOfTables(groups, Lxc);
    WellFormedByKind(TablesOf(groups));
  }

  /** The tables of the program are well formed, so what is proved of well-formed tables holds of them. */
  lemma TablesAreWellFormed()
    ensures WellFormed(TablesOf(GROUPS))
  {
    assert GROUPS[1] == Vms && GROUPS[2] == Lxcs;
    TablesOfAreWellFormed(GROUPS);
  }

  // ---------- a grant without a witness ----------

  lemma NoGuestAction(groups: seq<Group>, g: Group, action: string)
    requires g != Vms && g != Lxcs
    ensures !GuestAction(TablesOf(groups), Spelled(g, action))
  {
    var t, p := TablesOf(groups), Spelled(g, action);
    if GuestAction(t, p) {
      var k :| k in t.guestActions && p in t.guestActions[k];
      var a :| a in Actions(GroupOf(k)) && p == Spelled(GroupOf(k), a);
      SpelledApart(g, action, GroupOf(k), a);
    }
  }

  lemma HostsViewIsScoped(groups: seq<Group>)
    ensures Spelled(Hosts, "view") == "hosts.view"
    ensures "hosts.view" in TablesOf(groups).hostScoped && !GuestAction(TablesOf(groups), "hosts.view")
  {
    var p := Spelled(Hosts, "view");
    assert p == "hosts.view";
    assert Actions(Hosts)[0] == "view" && p in InGroup(Hosts);
    if p == Spelled(Hosts, "create") {
      SpelledApart(Hosts, "view", Hosts, "create");
    }
    NoGuestAction(groups, Hosts, "view");
  }

  /** With the tables of the program: a guest's override that holds "hosts.view" grants it for no host. */
  lemma HostsViewWithoutWitness()
    ensures var t, u := TablesOf(GROUPS), UserOf([], [], [GuestGrant("h", Some(Vm), 1, ["hosts.view"], true)]);
            UserHasPermission(t, u, "hosts.view", "", None) && !Witnessed(t, u, "hosts.view")
  {
    HostsViewIsScoped(GROUPS);
    CoarseWithoutWitness(TablesOf(GROUPS), "hosts.view");
  }
}
