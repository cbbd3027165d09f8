/**
  Which peers of a WireGuard configuration are written, and what is read of them again
  (`lib/wireguard-conf.ts`), peer by peer.
*/
module WireguardPeers {
  import opened Text
  import opened WireguardConf
  import opened WireguardRoundTrip

  // ---------- which peers are written ----------

  /** The peer could be written: its key is one, and it has addresses. */
  predicate Usable(isKey: string -> bool, p: Peer) {
    isKey(Trim(p.publicKey)) && Trim(p.allowedIPs) != ""
  }

  predicate SameKey(p: Peer, q: Peer) {
    Trim(p.publicKey) == Trim(q.publicKey)
  }

  /** Peer `i` is written: it is usable, and no usable peer before it has the same key. */
  predicate Written(isKey: string -> bool, peers: seq<Peer>, i: nat)
    requires i < |peers|
  {
    Usable(isKey, peers[i]) && forall j :: 0 <= j < i && SameKey(peers[j], peers[i]) ==> !Usable(isKey, peers[j])
  }

  /** The places `at` are those of the peers that are written, in order. */
  ghost predicate PlacesWritten(isKey: string -> bool, peers: seq<Peer>, at: seq<nat>) {
    PlacesFrom(IsWritten(isKey, peers), 0, |peers|, at)
  }

  function IsWritten(isKey: string -> bool, peers: seq<Peer>): nat -> bool {
    (i: nat) => i < |peers| && Written(isKey, peers, i)
  }

  ghost predicate Picks(peers: seq<Peer>, at: seq<nat>, kept: seq<Peer>) {
    |kept| == |at| && forall k :: 0 <= k < |at| ==> at[k] < |peers| && kept[k] == peers[at[k]]
  }

  /** The keys seen so far are those of the usable peers before `n`. */
  ghost predicate SeenAre(isKey: string -> bool, peers: seq<Peer>, n: nat, seen: set<string>)
    requires n <= |peers|
  {
    && (forall j :: 0 <= j < n && Usable(isKey, peers[j]) ==> Trim(peers[j].publicKey) in seen)
    && (forall s :: s in seen ==> exists j :: 0 <= j < n && Usable(isKey, peers[j]) && Trim(peers[j].publicKey) == s)
  }

  lemma KeptIffWritten(isKey: string -> bool, peers: seq<Peer>, n: nat, seen: set<string>)
    requires n < |peers| && SeenAre(isKey, peers, n, seen)
    ensures Kept(isKey, seen, peers[n]) <==> Written(isKey, peers, n)
    ensures SeenAre(isKey, peers, n + 1,
                    if Kept(isKey, seen, peers[n]) then seen + {Trim(peers[n].publicKey)} else seen)
  {
    var key := Trim(peers[n].publicKey);
    if Usable(isKey, peers[n]) {
      if key in seen {
        var j :| 0 <= j < n && Usable(isKey, peers[j]) && Trim(peers[j].publicKey) == key;
        assert SameKey(peers[j], peers[n]);
      } else {
        forall j | 0 <= j < n && SameKey(peers[j], peers[n])
          ensures !Usable(isKey, peers[j])
        {
        }
      }
    }
    var more := if Kept(isKey, seen, peers[n]) then seen + {key} else seen;
    forall s | s in more
      ensures exists j :: 0 <= j < n + 1 && Usable(isKey, peers[j]) && Trim(peers[j].publicKey) == s
    {
      if s in seen {
        var j :| 0 <= j < n && Usable(isKey, peers[j]) && Trim(peers[j].publicKey) == s;
        assert j < n + 1;
      } else {
        assert s == Trim(peers[n].publicKey) && Usable(isKey, peers[n]);
      }
    }
  }

  lemma OneMorePick(peers: seq<Peer>, n: nat, rest: seq<nat>, kept: seq<Peer>)
    requires n < |peers| && Picks(peers, rest, kept)
    ensures Picks(peers, [n] + rest, [peers[n]] + kept)
  {
  }

  /** The peers from `n` on that are written, with their places. */
  lemma {:induction false} PicksFrom(isKey: string -> bool, peers: seq<Peer>, n: nat, seen: set<string>)
    returns (at: seq<nat>)
    requires n <= |peers| && SeenAre(isKey, peers, n, seen)
    ensures Picks(peers, at, KeptPeers(isKey, peers[n..], seen)) && PlacesFrom(IsWritten(isKey, peers), n, |peers|, at)
    decreases |peers| - n
  {
    if n == |peers| {
      at := [];
    } else {
      KeptIffWritten(isKey, peers, n, seen);
      assert peers[n..][0] == peers[n] && peers[n..][1..] == peers[n + 1..];
      if Kept(isKey, seen, peers[n]) {
        var more := seen + {Trim(peers[n].publicKey)};
        var rest := PicksFrom(isKey, peers, n + 1, more);
        OneMorePlace(IsWritten(isKey, peers), n, |peers|, rest);
        OneMorePick(peers, n, rest, KeptPeers(isKey, peers[n + 1..], more));
        at := [n] + rest;
      } else {
        at := PicksFrom(isKey, peers, n + 1, seen);
        OneMorePlace(IsWritten(isKey, peers), n, |peers|, at);
      }
    }
  }

  lemma WrittenKeysDiffer(isKey: string -> bool, peers: seq<Peer>, i: nat, j: nat)
    requires i < j < |peers| && Written(isKey, peers, i) && Written(isKey, peers, j)
    ensures !SameKey(peers[i], peers[j])
  {
  }

  /**
    The peers that are written: just those that are usable and have no usable one with the same key before
    them, in their order, and no key twice.
  */
  lemma KeptAreWritten(isKey: string -> bool, peers: seq<Peer>) returns (at: seq<nat>)
    ensures PlacesWritten(isKey, peers, at) && Picks(peers, at, KeptPeers(isKey, peers, {}))
    ensures forall k, l :: 0 <= k < l < |at| ==> !SameKey(peers[at[k]], peers[at[l]])
  {
    assert peers[0..] == peers;
    at := PicksFrom(isKey, peers, 0, {});
    forall k, l | 0 <= k < l < |at|
      ensures !SameKey(peers[at[k]], peers[at[l]])
    {
      WrittenKeysDiffer(isKey, peers, at[k], at[l]);
    }
  }

  // ---------- what is read of them ----------

  /** What the reader makes of a peer that was written. */
  predicate ReadsAs(isKey: string -> bool, p: Peer, r: Peer) {
    && r.publicKey == Trim(p.publicKey) && r.allowedIPs == Trim(p.allowedIPs)
    && (match p.endpoint
        case None => r.endpoint == None
        case Some(e) => r.endpoint == if Trim(e) == "" then None else Some(Trim(e)))
    && (match p.keepalive
        case None => r.keepalive == Some(25)
        case Some(ka) => r.keepalive == if ka > 0 then Some(ka) else None)
    && (match p.presharedKey
        case None => r.presharedKey == None
        case Some(k) => r.presharedKey == if isKey(k) then Some(Trim(k)) else None)
  }

  lemma NormalReadsAs(isKey: string -> bool, p: Peer)
    requires KeyLaws(isKey)
    ensures ReadsAs(isKey, p, NormalPeer(isKey, p))
  {
  }

  lemma {:induction false} NormalPeersAt(isKey: string -> bool, kept: seq<Peer>, k: nat)
    requires KeyLaws(isKey) && k < |kept|
    ensures |NormalPeers(isKey, kept)| == |kept| && ReadsAs(isKey, kept[k], NormalPeers(isKey, kept)[k])
  {
    NormalReadsAs(isKey, kept[0]);
    if |kept| > 1 {
      NormalPeersAt(isKey, kept[1..], if k > 0 then k - 1 else 0);
    }
  }

  /** A host of the address, or of a part of it: what stands before the first slash. */
  predicate QuadBefore(part: string) {
    IsDottedQuad(Trim(Split(part, '/')[0]))
  }

  /** The first part of the address whose host is a dotted quad, with its prefix or "/32". */
  ghost predicate AddressReadsAs(address: string, a: string) {
    exists k :: AddressAt(Fields(address, ','), k, a)
  }

  predicate AddressAt(parts: seq<string>, k: int, a: string) {
    && 0 <= k < |parts| && QuadBefore(parts[k]) && (forall j :: 0 <= j < k ==> !QuadBefore(parts[j]))
    && (if '/' in parts[k] then a == parts[k] else a == Trim(parts[k]) + "/32")
  }

  lemma {:induction false} FirstCidrAt(parts: seq<string>) returns (k: nat)
    ensures FirstCidrOf(parts).None? ==> k == |parts|
    ensures FirstCidrOf(parts).Some? ==> AddressAt(parts, k, FirstCidrOf(parts).value)
    ensures FirstCidrOf(parts).None? <==> forall j :: 0 <= j < |parts| ==> !QuadBefore(parts[j])
  {
    k := 0;
    if parts != [] {
      if IsDottedQuad(HostOf(parts[0])) {
        if '/' !in parts[0] {
          SplitWhole(parts[0], '/');
        }
      } else {
        k := FirstCidrAt(parts[1..]);
        var rest := parts[1..];
        assert forall j :: 0 < j < |parts| ==> parts[j] == rest[j - 1];
        k := k + 1;
      }
    }
  }

  lemma AddressRead(address: string)
    ensures var a := FirstIpv4Cidr([Trim(address)]);
            && (a.Some? ==> AddressReadsAs(address, a.value))
            && (a.None? <==> forall part :: part in Fields(address, ',') ==> !QuadBefore(part))
  {
    FieldsOfTrimmed(address, ',');
    var parts := Fields(address, ',');
    var k := FirstCidrAt(parts);
    assert [Trim(address)][1..] == [];
  }

  /**
    For every configuration whose fields are single lines: what is read of the printed text is one peer for
    each that is written, in their order, with its values trimmed; and there is an error just when the key
    is none, no part of the address is a dotted quad, or no peer is written.
  */
  lemma ReadsWhatIsWritten(isKey: string -> bool, c: Config) returns (at: seq<nat>)
    requires KeyLaws(isKey) && SingleLine(c)
    ensures PlacesWritten(isKey, c.peers, at)
    ensures var r := Parse(isKey, Conf(isKey, c));
            && (r.Ok? <==> isKey(c.privateKey) && (exists part :: part in Fields(c.address, ',') && QuadBefore(part))
                           && exists i :: 0 <= i < |c.peers| && Written(isKey, c.peers, i))
            && (r.Ok? ==>
                && r.value.privateKey == Trim(c.privateKey) && AddressReadsAs(c.address, r.value.address)
                && |r.value.peers| == |at|
                && forall k :: 0 <= k < |at| ==> ReadsAs(isKey, c.peers[at[k]], r.value.peers[k]))
  {
    var kept := KeptPeers(isKey, c.peers, {});
    RoundTrip(isKey, c);
    at := KeptAreWritten(isKey, c.peers);
    AddressRead(c.address);
    forall k | 0 <= k < |kept|
      ensures |NormalPeers(isKey, kept)| == |kept| && ReadsAs(isKey, kept[k], NormalPeers(isKey, kept)[k])
    {
      NormalPeersAt(isKey, kept, k);
    }
    SomeWritten(isKey, c.peers, at);
  }

  lemma SomeWritten(isKey: string -> bool, peers: seq<Peer>, at: seq<nat>)
    requires PlacesWritten(isKey, peers, at)
    ensures at != [] <==> exists i :: 0 <= i < |peers| && Written(isKey, peers, i)
  {
    var written := IsWritten(isKey, peers);
    if at != [] {
      assert written(at[0]);
    }
    if i :| 0 <= i < |peers| && Written(isKey, peers, i) {
      assert written(i) && i in at;
    }
  }

  // ---------- the MTU ----------

  /** The MTU that is printed is the one given if it lies between 1280 and 1420, and else 1280. */
  lemma MtuIsRead(isKey: string -> bool, c: Config)
    requires KeyLaws(isKey) && SingleLine(c)
    ensures var s := Sections(Conf(isKey, c));
            && s.Ok? && FindInterface(s.value).Some?
            && ParseInt(JoinField(FindInterface(s.value).value, Mtu)) ==
               match c.mtu
               case None => Some(1280)
               case Some(m) => if 1280 <= m <= 1420 then Some(m) else Some(1280)
  {
    var m := MtuOf(c);
    PrintedSections(isKey, c);
    HeaderValues(c, Mtu);
    NumeralIsTight(m);
    TightIsTrimmed(Numeral(m));
    JoinOne(HeaderSection(c), Mtu, Numeral(m));
    ParseIntOfNumeral(m);
  }
}
