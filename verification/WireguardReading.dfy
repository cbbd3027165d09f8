/** What the reader of WireGuard configurations makes of files written by hand (`lib/wireguard-conf.ts`). */
module WireguardReading {
  import opened Text
  import opened WireguardConf

  /** Line ends of either kind, a byte-order mark, blank lines and the space around lines do not matter. */
  lemma LinesDecide(raw: string)
    ensures Sections(raw) == AddLines([], ContentLines(StripBom(raw)))
  {
    ContentLinesOfNormCrlf(StripBom(raw));
  }

  // ---------- lines that say nothing ----------

  /** A comment, or a line that is neither a heading nor a name, '=' and a value. */
  predicate IsNoise(l: string) {
    l == "" || l[0] == '#' || l[0] == ';' || (!IsHeading(l) && (l[0] == '=' || '=' !in l))
  }

  function WithoutNoise(ls: seq<string>): seq<string> {
    if ls == [] then []
    else (if IsNoise(ls[0]) then [] else [ls[0]]) + WithoutNoise(ls[1..])
  }

  lemma NoiseAddsNothing(sections: seq<Section>, l: string)
    requires IsNoise(l) && l != ""
    ensures AddLine(sections, l) == Ok(sections)
  {
    if '=' !in l {
      IndexOfNone(l, '=');
    }
  }

  /** Comments and lines without a name or a value are ignored. */
  lemma {:induction false} NoiseIsIgnored(sections: seq<Section>, ls: seq<string>)
    ensures AddLines(sections, ls) == AddLines(sections, WithoutNoise(ls))
    decreases |ls|
  {
    if ls != [] {
      var rest := WithoutNoise(ls[1..]);
      if IsNoise(ls[0]) {
        if ls[0] != "" {
          NoiseAddsNothing(sections, ls[0]);
        }
        NoiseIsIgnored(sections, ls[1..]);
        assert [] + rest == rest;
      } else {
        assert ([ls[0]] + rest)[1..] == rest;
        var r := AddLine(sections, ls[0]);
        if r.Ok? {
          NoiseIsIgnored(r.value, ls[1..]);
        }
      }
    }
  }

  /** What stands before the first heading is ignored as well. */
  lemma {:induction false} PreambleIsIgnored(before: seq<string>, ls: seq<string>)
    requires forall l :: l in before ==> !IsHeading(l)
    ensures AddLines([], before + ls) == AddLines([], ls)
    decreases |before|
  {
    if before == [] {
      assert before + ls == ls;
    } else {
      assert (before + ls)[1..] == before[1..] + ls;
      assert before[0] in before;
      PreambleIsIgnored(before[1..], ls);
    }
  }

  // ---------- names ----------

  /** A name in front of the first '='. */
  predicate IsName(key: string) {
    key != "" && '=' !in key && key[0] != '#' && key[0] != ';' && key[0] != '['
  }

  lemma NamedLine(sections: seq<Section>, key: string, value: string)
    requires IsName(key) && sections != []
    ensures AddLine(sections, key + "=" + value) ==
            if Inherited(LowerName(Trim(key))) then Err(FieldNotAList)
            else
              var s := sections[|sections| - 1];
              Ok(sections[|sections| - 1 := s.(fields := Push(s.fields, LowerName(Trim(key)), Trim(value)))])
  {
    var l := key + "=" + value;
    assert l == key + ['='] + value;
    IndexOfFirst(key, '=', value);
    assert l[0] == key[0] && l[..|key|] == key && l[|key| + 1..] == value;
  }

  /** Upper and lower case in names and the space around names and values do not matter. */
  lemma SpellingDoesNotMatter(sections: seq<Section>, key: string, value: string, other: string, same: string)
    requires sections != [] && IsName(key) && IsName(other)
    requires LowerName(Trim(key)) == LowerName(Trim(other)) && Trim(value) == Trim(same)
    ensures AddLine(sections, key + "=" + value) == AddLine(sections, other + "=" + same)
  {
    NamedLine(sections, key, value);
    NamedLine(sections, other, same);
  }

  predicate IsHeadingName(name: string) {
    name != "" && ']' !in name
  }

  /** A heading is a name in brackets. */
  lemma HeadingIff(l: string)
    ensures IsHeading(l) <==> exists name :: IsHeadingName(name) && l == "[" + name + "]"
  {
    if IsHeading(l) {
      var name := l[1..|l| - 1];
      assert l == "[" + name + "]" && IsHeadingName(name);
    }
    if name :| IsHeadingName(name) && l == "[" + name + "]" {
      assert l[1..|l| - 1] == name;
    }
  }

  lemma HeadingLine(sections: seq<Section>, name: string)
    requires IsHeadingName(name)
    ensures AddLine(sections, "[" + name + "]") == Ok(sections + [Section(LowerName(Trim(name)), map[])])
  {
    var l := "[" + name + "]";
    assert l[1..|l| - 1] == name;
  }

  /** The same of headings. */
  lemma HeadingSpellingDoesNotMatter(sections: seq<Section>, name: string, other: string)
    requires IsHeadingName(name) && IsHeadingName(other) && LowerName(Trim(name)) == LowerName(Trim(other))
    ensures AddLine(sections, "[" + name + "]") == AddLine(sections, "[" + other + "]")
  {
    HeadingLine(sections, name);
    HeadingLine(sections, other);
  }

  // ---------- which sections are read ----------

  /** The first section with the name is the interface. */
  lemma {:induction false} InterfaceIs(sections: seq<Section>, i: nat)
    requires i < |sections|
    requires sections[i].name == "interface" && forall j :: 0 <= j < i ==> sections[j].name != "interface"
    ensures FindInterface(sections) == Some(sections[i])
  {
    if i > 0 {
      InterfaceIs(sections[1..], i - 1);
    }
  }

  lemma {:induction false} NoInterface(sections: seq<Section>)
    requires forall j :: 0 <= j < |sections| ==> sections[j].name != "interface"
    ensures FindInterface(sections) == None
  {
    if sections != [] {
      NoInterface(sections[1..]);
    }
  }

  /** A section that gives a peer. */
  predicate IsPeer(isKey: string -> bool, s: Section) {
    s.name == "peer" && isKey(JoinField(s, PublicKey)) && JoinField(s, AllowedIPs) != ""
  }

  function GivesPeer(isKey: string -> bool, sections: seq<Section>): nat -> bool {
    (i: nat) => i < |sections| && IsPeer(isKey, sections[i])
  }

  /** What is read of a section that gives a peer. */
  predicate PeerOf(isKey: string -> bool, s: Section, p: Peer) {
    && p.publicKey == JoinField(s, PublicKey) && p.allowedIPs == JoinField(s, AllowedIPs)
    && (p.endpoint.None? <==> JoinField(s, Endpoint) == "")
    && (p.endpoint.Some? ==> p.endpoint.value == JoinField(s, Endpoint))
    && (p.presharedKey.Some? <==> isKey(JoinField(s, PresharedKey)))
    && (p.presharedKey.Some? ==> p.presharedKey.value == JoinField(s, PresharedKey))
    && p.keepalive == ReadKeepalive(JoinField(s, PersistentKeepalive))
  }

  /** What the reader keeps of the sections at these places. */
  ghost predicate PeersAt(isKey: string -> bool, sections: seq<Section>, at: seq<nat>, peers: seq<Peer>) {
    && |peers| == |at|
    && forall k :: 0 <= k < |at| ==> at[k] < |sections| && PeerOf(isKey, sections[at[k]], peers[k])
  }

  lemma PeersAtMore(isKey: string -> bool, sections: seq<Section>, n: nat, at: seq<nat>, peers: seq<Peer>, p: Peer)
    requires n < |sections| && PeersAt(isKey, sections, at, peers) && PeerOf(isKey, sections[n], p)
    ensures PeersAt(isKey, sections, [n] + at, [p] + peers)
  {
    var places, more := [n] + at, [p] + peers;
    forall k | 0 <= k < |places|
      ensures places[k] < |sections| && PeerOf(isKey, sections[places[k]], more[k])
    {
      assert k > 0 ==> places[k] == at[k - 1] && more[k] == peers[k - 1];
    }
  }

  lemma SectionGives(isKey: string -> bool, s: Section)
    ensures IsPeer(isKey, s) <==> s.name == "peer" && ReadPeer(isKey, s).Some?
    ensures ReadPeer(isKey, s).Some? ==> PeerOf(isKey, s, ReadPeer(isKey, s).value)
  {
  }

  lemma {:induction false} PeersFrom(isKey: string -> bool, sections: seq<Section>, n: nat) returns (at: seq<nat>)
    requires n <= |sections|
    ensures PlacesFrom(GivesPeer(isKey, sections), n, |sections|, at)
    ensures PeersAt(isKey, sections, at, ReadPeers(isKey, sections[n..]))
    decreases |sections| - n
  {
    at := [];
    if n < |sections| {
      at := PeersFrom(isKey, sections, n + 1);
      OneMorePlace(GivesPeer(isKey, sections), n, |sections|, at);
      SectionGives(isKey, sections[n]);
      assert sections[n..][0] == sections[n] && sections[n..][1..] == sections[n + 1..];
      if IsPeer(isKey, sections[n]) {
        var p := ReadPeer(isKey, sections[n]).value;
        PeersAtMore(isKey, sections, n, at, ReadPeers(isKey, sections[n + 1..]), p);
        at := [n] + at;
      }
    }
  }

  /** One peer is read for every section that gives one, in order, and the others are passed over. */
  lemma PeersAre(isKey: string -> bool, sections: seq<Section>) returns (at: seq<nat>)
    ensures PlacesFrom(GivesPeer(isKey, sections), 0, |sections|, at)
    ensures PeersAt(isKey, sections, at, ReadPeers(isKey, sections))
  {
    at := PeersFrom(isKey, sections, 0);
    assert sections[0..] == sections;
  }

  /** The values of a name that stands in several lines are joined; a keepalive is a number from zero on. */
  lemma ValuesAreJoined(s: Section, k: Key, v: string, w: string)
    requires ValuesOf(s, k) == [v, w]
    ensures JoinField(s, k) == Trim(v + ", " + w)
  {
    var values := [v, w];
    assert values[1..] == [w] && Join([w], ", ") == w;
  }

  lemma KeepaliveIs(n: nat)
    ensures ReadKeepalive(Numeral(n)) == Some(n) && ReadKeepalive("") == None
    ensures n > 0 ==> ReadKeepalive("-" + Numeral(n)) == None
  {
    ParseIntOfNumeral(n);
    var s := "-" + Numeral(n);
    assert TrimLeft(s) == s && s[1..] == Numeral(n);
    ParseIntOfMinus(n);
  }

  lemma ParseIntOfMinus(n: int)
    requires n >= 0
    ensures ParseInt("-" + Numeral(n)) == Some(-n)
  {
    var d := Numeral(n);
    var s := "-" + d;
    assert s[0] == '-' && s[1..] == d && TrimLeft(s) == s;
    assert IsDigit(d[0]);
    DigitRunOf(d, "");
    assert d + "" == d && d[..|d|] == d;
    NumeralRoundTrip(n);
  }
}
