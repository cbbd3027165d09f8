/** Printing and reading a WireGuard configuration a second time (`lib/wireguard-conf.ts`). */
module WireguardAgain {
  import opened Text
  import opened WireguardConf
  import opened WireguardRoundTrip
  import opened Cidr

  /** What was read, as a configuration to print. */
  function AsConfig(p: Parsed): Config {
    Config(p.privateKey, p.address, p.peers, None)
  }

  // ---------- the address ----------

  /** The address of a configuration that was read. */
  predicate NormalCidr(a: string) {
    a != [] && Tight(a) && ',' !in a && '/' in a && IsDottedQuad(HostOf(a))
  }

  lemma NormalCidrAgain(a: string)
    requires NormalCidr(a)
    ensures FirstIpv4Cidr([Trim(a)]) == Some(a)
  {
    TightIsTrimmed(a);
    FieldsWhole(a, ',');
    assert [a][1..] == [];
  }

  lemma HostWithPrefix(h: string)
    requires IsDottedQuad(h)
    ensures NormalCidr(h + "/32") && '\n' !in h + "/32"
  {
    QuadIsClean(h);
    if '\n' in h {
      QuadChars(h, '\n');
    }
    var p := "32";
    assert h + "/32" == h + ['/'] + p;
    SplitAt(h, '/', p);
    SplitWhole(h, '/');
    TightIsTrimmed(h);
  }

  lemma {:induction false} FirstCidrIsNormal(parts: seq<string>)
    requires forall f :: f in parts ==> f != [] && Tight(f) && ',' !in f && '\n' !in f
    ensures var a := FirstCidrOf(parts); a.Some? ==> NormalCidr(a.value) && '\n' !in a.value
  {
    if parts != [] {
      assert parts[0] in parts;
      if IsDottedQuad(HostOf(parts[0])) {
        HostWithPrefix(HostOf(parts[0]));
      } else {
        assert forall f :: f in parts[1..] ==> f in parts;
        FirstCidrIsNormal(parts[1..]);
      }
    }
  }

  lemma FieldsLack(s: string, c: char, x: char)
    requires x !in s
    ensures forall f :: f in Fields(s, c) ==> x !in f
  {
    SplitLacks(s, c, x);
    var parts := Split(s, c);
    forall f | f in Fields(s, c)
      ensures x !in f
    {
      NonEmptyMembers(TrimAll(parts), f);
      var k :| 0 <= k < |parts| && TrimAll(parts)[k] == f;
      TrimWithin(parts[k], x);
    }
  }

  lemma AddressIsNormal(address: string)
    requires '\n' !in address
    ensures var a := FirstIpv4Cidr([Trim(address)]); a.Some? ==> NormalCidr(a.value) && '\n' !in a.value
  {
    var v := Trim(address);
    TrimWithin(address, '\n');
    FieldsAreClean(v, ',');
    FieldsLack(v, ',', '\n');
    FirstCidrIsNormal(Fields(v, ','));
    assert [v][1..] == [];
  }

  // ---------- the peers ----------

  /** One peer is in normal form after the first reading just when it keeps the connection alive. */
  lemma NormalPeerAgainIff(isKey: string -> bool, p: Peer)
    requires KeyLaws(isKey)
    ensures NormalPeer(isKey, NormalPeer(isKey, p)) == NormalPeer(isKey, p) <==> Keepalive(p) > 0
  {
    TrimIsTight(p.publicKey);
    TrimIsTight(p.allowedIPs);
    if p.endpoint.Some? {
      TrimIsTight(p.endpoint.value);
    }
    if p.presharedKey.Some? {
      TrimIsTight(p.presharedKey.value);
    }
  }

  lemma NormalPeerIsKept(isKey: string -> bool, seen: set<string>, p: Peer)
    requires Kept(isKey, seen, p)
    ensures Kept(isKey, seen, NormalPeer(isKey, p)) && Trim(NormalPeer(isKey, p).publicKey) == Trim(p.publicKey)
  {
    TrimIsTight(p.publicKey);
    TrimIsTight(p.allowedIPs);
  }

  lemma {:induction false} KeptAgain(isKey: string -> bool, peers: seq<Peer>, seen: set<string>)
    ensures var n := NormalPeers(isKey, KeptPeers(isKey, peers, seen)); KeptPeers(isKey, n, seen) == n
    decreases |peers|
  {
    if peers != [] {
      if Kept(isKey, seen, peers[0]) {
        var more := seen + {Trim(peers[0].publicKey)};
        KeptAgain(isKey, peers[1..], more);
        NormalPeerIsKept(isKey, seen, peers[0]);
        var rest := KeptPeers(isKey, peers[1..], more);
        assert ([peers[0]] + rest)[1..] == rest;
        var n := NormalPeers(isKey, [peers[0]] + rest);
        assert n[1..] == NormalPeers(isKey, rest);
      } else {
        KeptAgain(isKey, peers[1..], seen);
      }
    }
  }

  ghost predicate AllKeepAlive(peers: seq<Peer>) {
    forall i :: 0 <= i < |peers| ==> Keepalive(peers[i]) > 0
  }

  lemma {:induction false} NormalPeersAgainIff(isKey: string -> bool, kept: seq<Peer>)
    requires KeyLaws(isKey)
    ensures var n := NormalPeers(isKey, kept); NormalPeers(isKey, n) == n <==> AllKeepAlive(kept)
  {
    if kept != [] {
      NormalPeersAgainIff(isKey, kept[1..]);
      NormalPeerAgainIff(isKey, kept[0]);
      var n := NormalPeers(isKey, kept);
      assert n[1..] == NormalPeers(isKey, kept[1..]);
      var again := NormalPeers(isKey, n);
      assert again[0] == NormalPeer(isKey, n[0]) && again[1..] == NormalPeers(isKey, n[1..]);
      assert again == n <==> again[0] == n[0] && again[1..] == n[1..];
      assert AllKeepAlive(kept) <==> Keepalive(kept[0]) > 0 && AllKeepAlive(kept[1..]) by {
        KeepAliveHead(kept);
      }
    }
  }

  lemma KeepAliveHead(kept: seq<Peer>)
    requires kept != []
    ensures AllKeepAlive(kept) <==> Keepalive(kept[0]) > 0 && AllKeepAlive(kept[1..])
  {
    if AllKeepAlive(kept) {
      forall i | 0 <= i < |kept[1..]|
        ensures Keepalive(kept[1..][i]) > 0
      {
        assert kept[1..][i] == kept[i + 1];
      }
    }
    if Keepalive(kept[0]) > 0 && AllKeepAlive(kept[1..]) {
      forall i | 0 <= i < |kept|
        ensures Keepalive(kept[i]) > 0
      {
        assert i > 0 ==> kept[1..][i - 1] == kept[i];
      }
    }
  }

  // ---------- the configuration ----------

  /** The normal form is its own normal form just when every peer that is kept keeps the connection alive. */
  lemma NormalAgainIff(isKey: string -> bool, c: Config)
    requires KeyLaws(isKey) && SingleLine(c) && Normal(isKey, c).Ok?
    ensures Normal(isKey, AsConfig(Normal(isKey, c).value)) == Normal(isKey, c) <==>
            AllKeepAlive(KeptPeers(isKey, c.peers, {}))
  {
    var kept := KeptPeers(isKey, c.peers, {});
    var n := Normal(isKey, c).value;
    TrimIsTight(c.privateKey);
    AddressIsNormal(c.address);
    NormalCidrAgain(n.address);
    KeptAgain(isKey, c.peers, {});
    NormalPeersAgainIff(isKey, kept);
    assert n.peers == NormalPeers(isKey, kept) && NormalPeers(isKey, n.peers) != [];
  }

  lemma {:induction false} KeptAreSingleLine(isKey: string -> bool, peers: seq<Peer>, seen: set<string>)
    requires SingleLinePeers(peers)
    ensures SingleLinePeers(KeptPeers(isKey, peers, seen))
    decreases |peers|
  {
    if peers != [] {
      if Kept(isKey, seen, peers[0]) {
        var more := seen + {Trim(peers[0].publicKey)};
        KeptAreSingleLine(isKey, peers[1..], more);
        var rest := KeptPeers(isKey, peers[1..], more);
        assert ([peers[0]] + rest)[1..] == rest;
      } else {
        KeptAreSingleLine(isKey, peers[1..], seen);
      }
    }
  }

  lemma NormalPeerIsSingleLine(isKey: string -> bool, p: Peer)
    requires SingleLinePeer(p)
    ensures SingleLinePeer(NormalPeer(isKey, p))
  {
    TrimWithin(p.publicKey, '\n');
    TrimWithin(p.allowedIPs, '\n');
    if p.endpoint.Some? {
      TrimWithin(p.endpoint.value, '\n');
    }
    if p.presharedKey.Some? {
      TrimWithin(p.presharedKey.value, '\n');
    }
  }

  lemma {:induction false} NormalPeersAreSingleLine(isKey: string -> bool, kept: seq<Peer>)
    requires SingleLinePeers(kept)
    ensures SingleLinePeers(NormalPeers(isKey, kept))
  {
    if kept != [] {
      NormalPeerIsSingleLine(isKey, kept[0]);
      NormalPeersAreSingleLine(isKey, kept[1..]);
      assert NormalPeers(isKey, kept)[1..] == NormalPeers(isKey, kept[1..]);
    }
  }

  lemma NormalIsSingleLine(isKey: string -> bool, c: Config)
    requires SingleLine(c) && Normal(isKey, c).Ok?
    ensures SingleLine(AsConfig(Normal(isKey, c).value))
  {
    TrimWithin(c.privateKey, '\n');
    AddressIsNormal(c.address);
    KeptAreSingleLine(isKey, c.peers, {});
    NormalPeersAreSingleLine(isKey, KeptPeers(isKey, c.peers, {}));
  }

  /**
    Printing what was read and reading it again gives the same configuration just when every peer that
    is kept has a keepalive above zero: one without is read as having none, and then printed with 25.
  */
  lemma SecondRoundTripIff(isKey: string -> bool, c: Config)
    requires KeyLaws(isKey) && SingleLine(c) && Parse(isKey, Conf(isKey, c)).Ok?
    ensures Parse(isKey, Conf(isKey, AsConfig(Parse(isKey, Conf(isKey, c)).value))) == Parse(isKey, Conf(isKey, c)) <==>
            AllKeepAlive(KeptPeers(isKey, c.peers, {}))
  {
    RoundTrip(isKey, c);
    NormalIsSingleLine(isKey, c);
    RoundTrip(isKey, AsConfig(Normal(isKey, c).value));
    NormalAgainIff(isKey, c);
  }

  /** A configuration with one peer. */
  function Single(key: string, address: string, keepalive: Option<int>): Config {
    Config(key, address, [Peer(key, None, address, keepalive, None)], None)
  }

  /** What is read of a keepalive that was printed. */
  function ReadBack(keepalive: Option<int>): Option<int> {
    if keepalive.None? then Some(25) else if keepalive.value > 0 then keepalive else None
  }

  lemma NormalSingle(isKey: string -> bool, key: string, a: string, keepalive: Option<int>)
    requires KeyLaws(isKey) && isKey(key) && Tight(key) && NormalCidr(a)
    ensures Normal(isKey, Single(key, a, keepalive))
         == Ok(Parsed(key, a, [Peer(key, None, a, ReadBack(keepalive), None)]))
  {
    TightIsTrimmed(a);
    TightIsTrimmed(key);
    NormalCidrAgain(a);
    OnePeer(isKey, Peer(key, None, a, keepalive, None));
  }

  lemma SingleIsRead(isKey: string -> bool, key: string, a: string, keepalive: Option<int>)
    requires KeyLaws(isKey) && isKey(key) && Tight(key) && '\n' !in key && NormalCidr(a) && '\n' !in a
    ensures Parse(isKey, Conf(isKey, Single(key, a, keepalive)))
         == Ok(Parsed(key, a, [Peer(key, None, a, ReadBack(keepalive), None)]))
  {
    RoundTrip(isKey, Single(key, a, keepalive));
    NormalSingle(isKey, key, a, keepalive);
  }

  const ADDRESS: string := Join(["1", "1", "1", "1"], ".") + "/32"

  lemma AddressIsFine()
    ensures NormalCidr(ADDRESS) && '\n' !in ADDRESS
  {
    SplitOfJoin(["1", "1", "1", "1"], '.');
    HostWithPrefix(Join(["1", "1", "1", "1"], "."));
  }

  /** A keepalive that is switched off is read as none, and comes back as 25 the second time. */
  lemma KeepaliveComesBack(isKey: string -> bool, key: string)
    requires KeyLaws(isKey) && isKey(key) && Tight(key) && '\n' !in key
    ensures var once := Parsed(key, ADDRESS, [Peer(key, None, ADDRESS, None, None)]);
            && Parse(isKey, Conf(isKey, Single(key, ADDRESS, Some(0)))) == Ok(once)
            && Parse(isKey, Conf(isKey, AsConfig(once)))
            == Ok(Parsed(key, ADDRESS, [Peer(key, None, ADDRESS, Some(25), None)]))
  {
    AddressIsFine();
    SingleIsRead(isKey, key, ADDRESS, Some(0));
    SingleIsRead(isKey, key, ADDRESS, None);
  }

  lemma OnePeer(isKey: string -> bool, p: Peer)
    requires Kept(isKey, {}, p)
    ensures KeptPeers(isKey, [p], {}) == [p] && NormalPeers(isKey, [p]) == [NormalPeer(isKey, p)]
  {
    assert [p][1..] == [];
  }
}
