/** Reading a configuration that was printed gives back its normal form, or says what is missing. */
module WireguardRoundTrip {
  import opened Text
  import opened WireguardConf

  // ---------- the normal form ----------

  function NormalPeer(isKey: string -> bool, p: Peer): Peer {
    Peer(
      Trim(p.publicKey),
      if p.endpoint.Some? then NonBlank(Trim(p.endpoint.value)) else None,
      Trim(p.allowedIPs),
      if Keepalive(p) > 0 then Some(Keepalive(p)) else None,
      if p.presharedKey.Some? && p.presharedKey.value != "" && isKey(p.presharedKey.value)
      then Some(Trim(p.presharedKey.value)) else None)
  }

  function NormalPeers(isKey: string -> bool, kept: seq<Peer>): seq<Peer> {
    if kept == [] then [] else [NormalPeer(isKey, kept[0])] + NormalPeers(isKey, kept[1..])
  }

  function Normal(isKey: string -> bool, c: Config): Result<Parsed, Error> {
    var address := FirstIpv4Cidr([Trim(c.address)]);
    var peers := NormalPeers(isKey, KeptPeers(isKey, c.peers, {}));
    if !isKey(c.privateKey) then Err(InvalidPrivateKey)
    else if address.None? then Err(MissingAddress)
    else if peers == [] then Err(MissingPeer)
    else Ok(Parsed(Trim(c.privateKey), address.value, peers))
  }

  predicate SingleLineField(s: Option<string>) {
    s.Some? ==> '\n' !in s.value
  }

  ghost predicate SingleLinePeers(peers: seq<Peer>) {
    peers != [] ==> SingleLinePeer(peers[0]) && SingleLinePeers(peers[1..])
  }

  /** No field holds a line feed. */
  ghost predicate SingleLine(c: Config) {
    && '\n' !in c.privateKey && '\n' !in c.address
    && SingleLinePeers(c.peers)
  }

  predicate SingleLinePeer(p: Peer) {
    && '\n' !in p.publicKey && '\n' !in p.allowedIPs
    && SingleLineField(p.endpoint) && SingleLineField(p.presharedKey)
  }

  // ---------- one field ----------

  /** What the reader needs to know about the names that are printed. */
  predicate KeyName(key: string) {
    && key != "" && Tight(key) && '=' !in key && '\n' !in key
    && key[0] != '#' && key[0] != ';' && key[0] != '['
  }

  lemma KeyNames(k: Key)
    ensures KeyName(KeyText(k)) && LowerName(KeyText(k)) == FieldName(k) && !Inherited(FieldName(k))
  {
    KeyTexts(k);
    LowerKeyTexts(k);
    NotInherited(k);
  }

  lemma KeyTexts(k: Key)
    ensures KeyName(KeyText(k))
  {
  }

  lemma LowerKeyTexts(k: Key)
    ensures LowerName(KeyText(k)) == FieldName(k)
  {
    if k.PrivateKey? || k.Address? || k.Mtu? || k.PublicKey? {
      LowerFirstTexts(k);
    } else {
      LowerOtherTexts(k);
    }
  }

  lemma LowerFirstTexts(k: Key)
    requires k.PrivateKey? || k.Address? || k.Mtu? || k.PublicKey?
    ensures LowerName(KeyText(k)) == FieldName(k)
  {
    assert |FieldName(k)| == |KeyText(k)|;
  }

  lemma LowerOtherTexts(k: Key)
    requires k.PresharedKey? || k.Endpoint? || k.AllowedIPs? || k.PersistentKeepalive?
    ensures LowerName(KeyText(k)) == FieldName(k)
  {
    assert |FieldName(k)| == |KeyText(k)|;
  }

  lemma NotInherited(k: Key)
    ensures !Inherited(FieldName(k))
  {
    assert FieldName(k)[1] != 'o' && FieldName(k)[1] != '_';
  }

  lemma FieldNamesDiffer(j: Key, k: Key)
    requires FieldName(j) == FieldName(k)
    ensures j == k
  {
    assert |FieldName(j)| == |FieldName(k)| && FieldName(j)[1] == FieldName(k)[1];
  }

  /** A printed line, trimmed, is the key, " =", and a value that trims to the trimmed value. */
  lemma TrimmedLine(key: string, v: string) returns (w: string)
    requires KeyName(key)
    ensures Trim(key + " = " + v) == key + " " + ['='] + w && Trim(w) == Trim(v)
  {
    var a, b := TrimSplits(v);
    var m := Trim(v);
    if m == [] {
      w := [];
      EmptyValue(key, v, a + b);
    } else {
      w := " " + a + m;
      FullValue(key, v, a, m, b);
    }
  }

  lemma EmptyValue(key: string, v: string, sp: string)
    requires KeyName(key) && v == sp && AllSpace(sp)
    ensures Trim(key + " = " + v) == key + " " + ['='] + []
  {
    assert key + " = " + v == [] + (key + " =") + (" " + sp);
    TrimUnique([], key + " =", " " + sp);
    assert key + " =" == key + " " + ['='] + [];
  }

  lemma FullValue(key: string, v: string, a: string, m: string, b: string)
    requires KeyName(key) && v == a + m + b && AllSpace(a) && AllSpace(b) && Tight(m) && m != []
    ensures Trim(key + " = " + v) == key + " " + ['='] + (" " + a + m) && Trim(" " + a + m) == m
  {
    var t := key + " " + ['='] + (" " + a + m);
    assert key + " = " + v == [] + t + b;
    assert t[|t| - 1] == m[|m| - 1] && t[0] == key[0];
    TrimUnique([], t, b);
    TrimUnique(" " + a, m, []);
    assert " " + a + m + [] == " " + a + m;
  }

  function PushOn(sections: seq<Section>, name: string, value: string): seq<Section>
    requires sections != []
  {
    var s := sections[|sections| - 1];
    sections[|sections| - 1 := s.(fields := Push(s.fields, name, value))]
  }

  lemma AddNamed(sections: seq<Section>, key: string, v: string)
    requires KeyName(key) && !Inherited(LowerName(key)) && sections != []
    ensures Trim(key + " = " + v) != []
    ensures AddLine(sections, Trim(key + " = " + v)) == Ok(PushOn(sections, LowerName(key), Trim(v)))
  {
    var w := TrimmedLine(key, v);
    var l := Trim(key + " = " + v);
    assert l[0] == key[0];
    assert '=' !in key + " ";
    IndexOfFirst(key + " ", '=', w);
    assert |key + " "| == |key| + 1;
    assert l[..|key| + 1] == key + " " && l[|key| + 2..] == w;
    TrimUnique([], key, " ");
    assert [] + key + " " == key + " ";
  }

  lemma AddField(sections: seq<Section>, k: Key, v: string)
    requires sections != []
    ensures Trim(Field(k, v)) != []
    ensures AddLine(sections, Trim(Field(k, v))) == Ok(PushOn(sections, FieldName(k), Trim(v)))
  {
    KeyNames(k);
    AddNamed(sections, KeyText(k), v);
  }

  // ---------- one section ----------

  type Pair = (Key, string)

  function FieldLines(pairs: seq<Pair>): seq<string> {
    if pairs == [] then [] else [Field(pairs[0].0, pairs[0].1)] + FieldLines(pairs[1..])
  }

  function PushPairs(fields: map<string, seq<string>>, pairs: seq<Pair>): map<string, seq<string>>
    decreases |pairs|
  {
    if pairs == [] then fields
    else PushPairs(Push(fields, FieldName(pairs[0].0), Trim(pairs[0].1)), pairs[1..])
  }

  lemma {:induction false} AddLinesConcat(s: seq<Section>, a: seq<string>, b: seq<string>)
    ensures var r := AddLines(s, a); AddLines(s, a + b) == if r.Err? then r else AddLines(r.value, b)
    decreases |a|
  {
    if a == [] {
      assert a + b == b;
    } else {
      assert (a + b)[1..] == a[1..] + b;
      if a[0] == [] {
        AddLinesConcat(s, a[1..], b);
      } else {
        var r := AddLine(s, a[0]);
        if r.Ok? {
          AddLinesConcat(r.value, a[1..], b);
        }
      }
    }
  }

  lemma {:induction false} AddFields(before: seq<Section>, s: Section, pairs: seq<Pair>)
    ensures AddLines(before + [s], TrimAll(FieldLines(pairs)))
         == Ok(before + [s.(fields := PushPairs(s.fields, pairs))])
    decreases |pairs|
  {
    if pairs != [] {
      var (k, v) := pairs[0];
      var s' := s.(fields := Push(s.fields, FieldName(k), Trim(v)));
      AddField(before + [s], k, v);
      assert PushOn(before + [s], FieldName(k), Trim(v)) == before + [s'];
      AddFields(before, s', pairs[1..]);
      var ls := TrimAll(FieldLines(pairs));
      assert ls[0] == Trim(Field(k, v));
      assert ls[1..] == TrimAll(FieldLines(pairs[1..]));
    }
  }

  /** A heading, its fields and a blank line. */
  function Block(name: string, pairs: seq<Pair>): seq<string> {
    ["[" + name + "]"] + FieldLines(pairs) + [""]
  }

  predicate SectionName(name: string) {
    Tight(name) && name != "" && ']' !in name
  }

  lemma AddHeading(before: seq<Section>, name: string)
    requires SectionName(name)
    ensures var h := "[" + name + "]";
            Trim(h) == h && AddLine(before, h) == Ok(before + [Section(LowerName(name), map[])])
  {
    var h := "[" + name + "]";
    TightIsTrimmed(h);
    TightIsTrimmed(name);
    assert h[1..|h| - 1] == name;
  }

  lemma AddThenBlank(before: seq<Section>, body: seq<string>)
    ensures AddLines(before, body + [""]) == AddLines(before, body)
  {
    AddLinesConcat(before, body, [""]);
    var one := [""];
    assert one[1..] == [] && one[0] == [];
    var r := AddLines(before, body);
    if r.Ok? {
      assert AddLines(r.value, one) == AddLines(r.value, one[1..]);
    }
  }

  /** A block reads as one section. */
  lemma AddBlock(before: seq<Section>, name: string, pairs: seq<Pair>)
    requires SectionName(name)
    ensures AddLines(before, TrimAll(Block(name, pairs)))
         == Ok(before + [Section(LowerName(name), PushPairs(map[], pairs))])
  {
    var s, body := Section(LowerName(name), map[]), TrimAll(FieldLines(pairs));
    AddHeading(before, name);
    AddFields(before, s, pairs);
    TightIsTrimmed("");
    var all := TrimAll(Block(name, pairs));
    assert all == ["[" + name + "]"] + (body + [""]);
    assert all[1..] == body + [""];
    AddThenBlank(before + [s], body);
  }

  // ---------- looking values up ----------

  function Lookup(pairs: seq<Pair>, k: Key): seq<string> {
    if pairs == [] then []
    else (if pairs[0].0 == k then [Trim(pairs[0].1)] else []) + Lookup(pairs[1..], k)
  }

  lemma {:induction false} PushedValues(s: Section, pairs: seq<Pair>, k: Key)
    ensures ValuesOf(s.(fields := PushPairs(s.fields, pairs)), k) == ValuesOf(s, k) + Lookup(pairs, k)
    decreases |pairs|
  {
    if pairs == [] {
      assert ValuesOf(s, k) + [] == ValuesOf(s, k);
    } else {
      var next := s.(fields := Push(s.fields, FieldName(pairs[0].0), Trim(pairs[0].1)));
      PushedValues(next, pairs[1..], k);
      PushedOne(s, pairs[0].0, Trim(pairs[0].1), k);
      var here := if pairs[0].0 == k then [Trim(pairs[0].1)] else [];
      ConcatAssociates(ValuesOf(s, k), here, Lookup(pairs[1..], k));
    }
  }

  lemma PushedOne(s: Section, j: Key, v: string, k: Key)
    ensures ValuesOf(s.(fields := Push(s.fields, FieldName(j), v)), k) == ValuesOf(s, k) + (if j == k then [v] else [])
  {
    if FieldName(j) == FieldName(k) {
      FieldNamesDiffer(j, k);
    } else {
      assert ValuesOf(s, k) + [] == ValuesOf(s, k);
    }
  }

  lemma {:induction false} LookupConcat(a: seq<Pair>, b: seq<Pair>, k: Key)
    ensures Lookup(a + b, k) == Lookup(a, k) + Lookup(b, k)
  {
    if a == [] {
      assert a + b == b;
    } else {
      assert (a + b)[1..] == a[1..] + b;
      LookupConcat(a[1..], b, k);
    }
  }

  lemma {:induction false} FieldLinesConcat(a: seq<Pair>, b: seq<Pair>)
    ensures FieldLines(a + b) == FieldLines(a) + FieldLines(b)
  {
    if a == [] {
      assert a + b == b;
    } else {
      assert (a + b)[1..] == a[1..] + b;
      FieldLinesConcat(a[1..], b);
    }
  }

  lemma One(p: Pair, k: Key)
    ensures FieldLines([p]) == [Field(p.0, p.1)]
    ensures Lookup([p], k) == if p.0 == k then [Trim(p.1)] else []
  {
    assert [p][1..] == [];
  }

  /** The parts of a list of fields, printed and looked up one by one. */
  lemma FivePartsPrinted(a: seq<Pair>, b: seq<Pair>, c: seq<Pair>, d: seq<Pair>, e: seq<Pair>)
    ensures FieldLines(a + b + c + d + e)
         == FieldLines(a) + FieldLines(b) + FieldLines(c) + FieldLines(d) + FieldLines(e)
  {
    FieldLinesConcat(a + b + c + d, e);
    FieldLinesConcat(a + b + c, d);
    FieldLinesConcat(a + b, c);
    FieldLinesConcat(a, b);
  }

  lemma FivePartsLookedUp(a: seq<Pair>, b: seq<Pair>, c: seq<Pair>, d: seq<Pair>, e: seq<Pair>, k: Key)
    ensures Lookup(a + b + c + d + e, k) == Lookup(a, k) + Lookup(b, k) + Lookup(c, k) + Lookup(d, k) + Lookup(e, k)
  {
    LookupConcat(a + b + c + d, e, k);
    LookupConcat(a + b + c, d, k);
    LookupConcat(a + b, c, k);
    LookupConcat(a, b, k);
  }

  // ---------- the sections of a printed configuration ----------

  predicate HasPreshared(isKey: string -> bool, p: Peer) {
    p.presharedKey.Some? && p.presharedKey.value != "" && isKey(p.presharedKey.value)
  }

  predicate HasEndpoint(p: Peer) {
    p.endpoint.Some? && Trim(p.endpoint.value) != ""
  }

  function PresharedPart(isKey: string -> bool, p: Peer): seq<Pair> {
    if HasPreshared(isKey, p) then [(PresharedKey, Trim(p.presharedKey.value))] else []
  }

  function EndpointPart(p: Peer): seq<Pair> {
    if HasEndpoint(p) then [(Endpoint, Trim(p.endpoint.value))] else []
  }

  function KeepalivePart(p: Peer): seq<Pair> {
    if Keepalive(p) > 0 then [(PersistentKeepalive, Decimal(Keepalive(p)))] else []
  }

  function PeerPairs(isKey: string -> bool, p: Peer): seq<Pair> {
    [(PublicKey, Trim(p.publicKey))] + PresharedPart(isKey, p) + EndpointPart(p)
    + [(AllowedIPs, Trim(p.allowedIPs))] + KeepalivePart(p)
  }

  function HeaderPairs(c: Config): seq<Pair> {
    [(PrivateKey, c.privateKey), (Address, c.address), (Mtu, Decimal(MtuOf(c)))]
  }

  lemma HeaderIsBlock(c: Config)
    ensures Header(c) == Block("Interface", HeaderPairs(c))
  {
    var pairs := HeaderPairs(c);
    assert pairs[1..][1..] == [pairs[2]];
    One(pairs[2], Mtu);
    assert FieldLines(pairs[1..]) == [Field(Address, c.address)] + FieldLines([pairs[2]]);
    assert "[" + "Interface" + "]" == "[Interface]";
    assert FieldLines(pairs)
        == [Field(PrivateKey, c.privateKey), Field(Address, c.address), Field(Mtu, Decimal(MtuOf(c)))];
  }

  lemma PeerIsBlock(isKey: string -> bool, p: Peer)
    ensures PeerLines(isKey, p) == Block("Peer", PeerPairs(isKey, p))
  {
    PeerFieldLines(isKey, p);
    SevenPieces("[Peer]", Field(PublicKey, Trim(p.publicKey)), PresharedLine(isKey, p), EndpointLine(p),
                Field(AllowedIPs, Trim(p.allowedIPs)), KeepaliveLine(p));
    PeerHeading();
  }

  lemma PeerHeading()
    ensures "[" + "Peer" + "]" == "[Peer]"
  {
  }

  lemma PeerFieldLines(isKey: string -> bool, p: Peer)
    ensures FieldLines(PeerPairs(isKey, p)) ==
            [Field(PublicKey, Trim(p.publicKey))] + PresharedLine(isKey, p) + EndpointLine(p)
            + [Field(AllowedIPs, Trim(p.allowedIPs))] + KeepaliveLine(p)
  {
    var a, d := [(PublicKey, Trim(p.publicKey))], [(AllowedIPs, Trim(p.allowedIPs))];
    FivePartsPrinted(a, PresharedPart(isKey, p), EndpointPart(p), d, KeepalivePart(p));
    One(a[0], Mtu);
    One(d[0], Mtu);
    PartLines(isKey, p);
  }

  lemma SevenPieces(h: string, a: string, b: seq<string>, c: seq<string>, d: string, e: seq<string>)
    ensures [h, a] + b + c + [d] + e + [""] == [h] + ([a] + b + c + [d] + e) + [""]
  {
  }

  lemma PartLines(isKey: string -> bool, p: Peer)
    ensures FieldLines(PresharedPart(isKey, p)) == PresharedLine(isKey, p)
    ensures FieldLines(EndpointPart(p)) == EndpointLine(p)
    ensures FieldLines(KeepalivePart(p)) == KeepaliveLine(p)
  {
    if HasPreshared(isKey, p) {
      One(PresharedPart(isKey, p)[0], Mtu);
    }
    if HasEndpoint(p) {
      One(EndpointPart(p)[0], Mtu);
    }
    if Keepalive(p) > 0 {
      One(KeepalivePart(p)[0], Mtu);
    }
  }

  function PeerSection(isKey: string -> bool, p: Peer): Section {
    Section("peer", PushPairs(map[], PeerPairs(isKey, p)))
  }

  function HeaderSection(c: Config): Section {
    Section("interface", PushPairs(map[], HeaderPairs(c)))
  }

  function PeerSections(isKey: string -> bool, kept: seq<Peer>): seq<Section> {
    if kept == [] then [] else [PeerSection(isKey, kept[0])] + PeerSections(isKey, kept[1..])
  }

  lemma SectionNames()
    ensures SectionName("Interface") && LowerName("Interface") == "interface"
    ensures SectionName("Peer") && LowerName("Peer") == "peer"
  {
  }

  lemma AddPeer(isKey: string -> bool, before: seq<Section>, p: Peer)
    ensures AddLines(before, TrimAll(PeerLines(isKey, p))) == Ok(before + [PeerSection(isKey, p)])
  {
    PeerIsBlock(isKey, p);
    SectionNames();
    AddBlock(before, "Peer", PeerPairs(isKey, p));
  }

  lemma AddHeader(c: Config)
    ensures AddLines([], TrimAll(Header(c))) == Ok([HeaderSection(c)])
  {
    HeaderIsBlock(c);
    SectionNames();
    AddBlock([], "Interface", HeaderPairs(c));
    assert [] + [HeaderSection(c)] == [HeaderSection(c)];
  }

  lemma AddTrimmed(s: seq<Section>, a: seq<string>, b: seq<string>)
    ensures var r := AddLines(s, TrimAll(a));
            AddLines(s, TrimAll(a + b)) == if r.Err? then r else AddLines(r.value, TrimAll(b))
  {
    assert TrimAll(a + b) == TrimAll(a) + TrimAll(b);
    AddLinesConcat(s, TrimAll(a), TrimAll(b));
  }

  lemma {:induction false} AddPeers(isKey: string -> bool, before: seq<Section>, kept: seq<Peer>)
    ensures AddLines(before, TrimAll(AllPeerLines(isKey, kept))) == Ok(before + PeerSections(isKey, kept))
    decreases |kept|
  {
    if kept == [] {
      assert before + [] == before;
    } else {
      AddTrimmed(before, PeerLines(isKey, kept[0]), AllPeerLines(isKey, kept[1..]));
      AddPeer(isKey, before, kept[0]);
      AddPeers(isKey, before + [PeerSection(isKey, kept[0])], kept[1..]);
      ConcatAssociates(before, [PeerSection(isKey, kept[0])], PeerSections(isKey, kept[1..]));
    }
  }

  lemma AddAll(isKey: string -> bool, c: Config)
    ensures AddLines([], TrimAll(ConfLines(isKey, c)))
         == Ok([HeaderSection(c)] + PeerSections(isKey, KeptPeers(isKey, c.peers, {})))
  {
    var kept := KeptPeers(isKey, c.peers, {});
    AddTrimmed([], Header(c), AllPeerLines(isKey, kept));
    AddHeader(c);
    AddPeers(isKey, [HeaderSection(c)], kept);
  }

  // ---------- the text as a list of lines ----------

  ghost predicate SingleLines(ls: seq<string>) {
    forall i :: 0 <= i < |ls| ==> '\n' !in ls[i]
  }

  lemma FieldSingle(k: Key, v: string)
    requires '\n' !in v
    ensures '\n' !in Field(k, v)
    ensures '\n' !in Field(k, Trim(v))
  {
    KeyTexts(k);
    TrimWithin(v, '\n');
  }

  lemma DecimalSingle(k: Key, n: int)
    ensures '\n' !in Field(k, Decimal(n))
  {
    FieldSingle(k, Decimal(n));
  }

  lemma SingleConcat(a: string, b: seq<string>, c: seq<string>, d: string, e: seq<string>)
    requires '\n' !in a && SingleLines(b) && SingleLines(c) && '\n' !in d && SingleLines(e)
    ensures SingleLines(["[Peer]", a] + b + c + [d] + e + [""])
  {
  }

  lemma OptionalSingle(isKey: string -> bool, p: Peer)
    requires SingleLinePeer(p)
    ensures SingleLines(PresharedLine(isKey, p)) && SingleLines(EndpointLine(p)) && SingleLines(KeepaliveLine(p))
  {
    DecimalSingle(PersistentKeepalive, Keepalive(p));
    if p.endpoint.Some? {
      FieldSingle(Endpoint, p.endpoint.value);
    }
    if p.presharedKey.Some? {
      FieldSingle(PresharedKey, p.presharedKey.value);
    }
  }

  lemma PeerLinesSingle(isKey: string -> bool, p: Peer)
    requires SingleLinePeer(p)
    ensures SingleLines(PeerLines(isKey, p))
  {
    var a, d := Field(PublicKey, Trim(p.publicKey)), Field(AllowedIPs, Trim(p.allowedIPs));
    FieldSingle(PublicKey, p.publicKey);
    FieldSingle(AllowedIPs, p.allowedIPs);
    OptionalSingle(isKey, p);
    SingleConcat(a, PresharedLine(isKey, p), EndpointLine(p), d, KeepaliveLine(p));
  }

  lemma {:induction false} AllPeerLinesSingle(isKey: string -> bool, kept: seq<Peer>)
    requires SingleLinePeers(kept)
    ensures SingleLines(AllPeerLines(isKey, kept))
    decreases |kept|
  {
    if kept != [] {
      PeerLinesSingle(isKey, kept[0]);
      AllPeerLinesSingle(isKey, kept[1..]);
    }
  }

  lemma {:induction false} KeptSingle(isKey: string -> bool, peers: seq<Peer>, seen: set<string>)
    requires SingleLinePeers(peers)
    ensures SingleLinePeers(KeptPeers(isKey, peers, seen))
    decreases |peers|
  {
    if peers != [] {
      var seen' := if Kept(isKey, seen, peers[0]) then seen + {Trim(peers[0].publicKey)} else seen;
      KeptSingle(isKey, peers[1..], seen');
    }
  }

  lemma HeaderSingle(c: Config)
    requires SingleLine(c)
    ensures SingleLines(Header(c))
  {
    FieldSingle(PrivateKey, c.privateKey);
    FieldSingle(Address, c.address);
    DecimalSingle(Mtu, MtuOf(c));
  }

  lemma ConfLinesSingle(isKey: string -> bool, c: Config)
    requires SingleLine(c)
    ensures SingleLines(ConfLines(isKey, c))
  {
    HeaderSingle(c);
    KeptSingle(isKey, c.peers, {});
    AllPeerLinesSingle(isKey, KeptPeers(isKey, c.peers, {}));
  }

  lemma {:induction false} JoinStarts(ls: seq<string>, sep: string)
    requires ls != []
    ensures ls[0] <= Join(ls, sep)
  {
    if |ls| > 1 {
      assert Join(ls, sep) == ls[0] + (sep + Join(ls[1..], sep));
    }
  }

  /** A reader that trims lines and skips blank ones sees the lines that were joined. */
  lemma ReadsJoinedLines(ls: seq<string>)
    requires SingleLines(ls) && ls != [] && ls[0] != [] && ls[0][0] == '['
    ensures ContentLines(NormCrlf(StripBom(Trim(Join(ls, "\n")) + "\n"))) == NonEmpty(TrimAll(ls))
  {
    var j := Join(ls, "\n");
    JoinStarts(ls, "\n");
    assert j[0] == '[';
    TrimHead(j);
    var text := Trim(j) + "\n";
    assert StripBom(text) == text;
    ContentLinesOfNormCrlf(text);
    FieldsTail(Trim(j), '\n', '\n');
    FieldsOfTrimmed(j, '\n');
    SplitOfJoin(ls, '\n');
  }

  lemma ConfLinesStart(isKey: string -> bool, c: Config)
    ensures var ls := ConfLines(isKey, c); ls != [] && ls[0] != [] && ls[0][0] == '['
  {
  }

  lemma PrintedSections(isKey: string -> bool, c: Config)
    requires SingleLine(c)
    ensures Sections(Conf(isKey, c))
         == Ok([HeaderSection(c)] + PeerSections(isKey, KeptPeers(isKey, c.peers, {})))
  {
    var ls := ConfLines(isKey, c);
    ConfLinesSingle(isKey, c);
    ConfLinesStart(isKey, c);
    ReadsJoinedLines(ls);
    AddLinesSkipsBlank([], TrimAll(ls));
    AddAll(isKey, c);
  }

  // ---------- the values of the sections ----------

  lemma SectionValues(name: string, pairs: seq<Pair>, k: Key)
    ensures ValuesOf(Section(name, PushPairs(map[], pairs)), k) == Lookup(pairs, k)
  {
    var s := Section(name, map[]);
    PushedValues(s, pairs, k);
    assert s.(fields := PushPairs(s.fields, pairs)) == Section(name, PushPairs(map[], pairs));
    assert ValuesOf(s, k) == [];
    assert [] + Lookup(pairs, k) == Lookup(pairs, k);
  }

  /** The values of a peer's section under a key: at most one part of the pairs has that name. */
  lemma PeerParts(isKey: string -> bool, p: Peer, k: Key)
    ensures ValuesOf(PeerSection(isKey, p), k) ==
            Lookup([(PublicKey, Trim(p.publicKey))], k)
            + Lookup(PresharedPart(isKey, p), k) + Lookup(EndpointPart(p), k)
            + Lookup([(AllowedIPs, Trim(p.allowedIPs))], k) + Lookup(KeepalivePart(p), k)
  {
    SectionValues("peer", PeerPairs(isKey, p), k);
    FivePartsLookedUp([(PublicKey, Trim(p.publicKey))], PresharedPart(isKey, p), EndpointPart(p),
                      [(AllowedIPs, Trim(p.allowedIPs))], KeepalivePart(p), k);
  }

  lemma PeerValues(isKey: string -> bool, p: Peer, k: Key)
    ensures ValuesOf(PeerSection(isKey, p), k) ==
      match k
      case PublicKey => [Trim(Trim(p.publicKey))]
      case PresharedKey => if HasPreshared(isKey, p) then [Trim(Trim(p.presharedKey.value))] else []
      case Endpoint => if HasEndpoint(p) then [Trim(Trim(p.endpoint.value))] else []
      case AllowedIPs => [Trim(Trim(p.allowedIPs))]
      case PersistentKeepalive => if Keepalive(p) > 0 then [Trim(Decimal(Keepalive(p)))] else []
      case _ => []
  {
    PeerParts(isKey, p, k);
    One((PublicKey, Trim(p.publicKey)), k);
    One((AllowedIPs, Trim(p.allowedIPs)), k);
    PartLookups(isKey, p, k);
  }

  lemma PartLookups(isKey: string -> bool, p: Peer, k: Key)
    ensures Lookup(PresharedPart(isKey, p), k) ==
            if k == PresharedKey && HasPreshared(isKey, p) then [Trim(Trim(p.presharedKey.value))] else []
    ensures Lookup(EndpointPart(p), k) ==
            if k == Endpoint && HasEndpoint(p) then [Trim(Trim(p.endpoint.value))] else []
    ensures Lookup(KeepalivePart(p), k) ==
            if k == PersistentKeepalive && Keepalive(p) > 0 then [Trim(Decimal(Keepalive(p)))] else []
  {
    if HasPreshared(isKey, p) {
      One(PresharedPart(isKey, p)[0], k);
    }
    if HasEndpoint(p) {
      One(EndpointPart(p)[0], k);
    }
    if Keepalive(p) > 0 {
      One(KeepalivePart(p)[0], k);
    }
  }

  lemma JoinOne(s: Section, k: Key, v: string)
    requires ValuesOf(s, k) == [Trim(Trim(v))]
    ensures JoinField(s, k) == Trim(v)
  {
    TrimIsTight(v);
  }

  lemma JoinNone(s: Section, k: Key)
    requires ValuesOf(s, k) == []
    ensures JoinField(s, k) == []
  {
    TightIsTrimmed([]);
  }

  lemma KeepaliveReads(isKey: string -> bool, p: Peer)
    ensures ReadKeepalive(JoinField(PeerSection(isKey, p), PersistentKeepalive))
         == if Keepalive(p) > 0 then Some(Keepalive(p)) else None
  {
    var s, ka := PeerSection(isKey, p), Keepalive(p);
    PeerValues(isKey, p, PersistentKeepalive);
    if ka > 0 {
      NumeralIsTight(ka);
      TightIsTrimmed(Numeral(ka));
      ParseIntOfNumeral(ka);
      JoinOne(s, PersistentKeepalive, Numeral(ka));
    } else {
      JoinNone(s, PersistentKeepalive);
    }
  }

  lemma EndpointReads(isKey: string -> bool, p: Peer)
    ensures NonBlank(JoinField(PeerSection(isKey, p), Endpoint)) == NormalPeer(isKey, p).endpoint
  {
    PeerValues(isKey, p, Endpoint);
    if HasEndpoint(p) {
      JoinOne(PeerSection(isKey, p), Endpoint, p.endpoint.value);
    } else {
      JoinNone(PeerSection(isKey, p), Endpoint);
    }
  }

  lemma PresharedReads(isKey: string -> bool, p: Peer)
    requires KeyLaws(isKey)
    ensures var psk := JoinField(PeerSection(isKey, p), PresharedKey);
            (if isKey(psk) then Some(psk) else None) == NormalPeer(isKey, p).presharedKey
  {
    PeerValues(isKey, p, PresharedKey);
    if HasPreshared(isKey, p) {
      JoinOne(PeerSection(isKey, p), PresharedKey, p.presharedKey.value);
    } else {
      JoinNone(PeerSection(isKey, p), PresharedKey);
    }
  }

  lemma PeerReads(isKey: string -> bool, p: Peer, seen: set<string>)
    requires KeyLaws(isKey) && Kept(isKey, seen, p)
    ensures ReadPeer(isKey, PeerSection(isKey, p)) == Some(NormalPeer(isKey, p))
  {
    var s := PeerSection(isKey, p);
    PeerValues(isKey, p, PublicKey);
    PeerValues(isKey, p, AllowedIPs);
    JoinOne(s, PublicKey, p.publicKey);
    JoinOne(s, AllowedIPs, p.allowedIPs);
    KeepaliveReads(isKey, p);
    EndpointReads(isKey, p);
    PresharedReads(isKey, p);
  }

  lemma {:induction false} PeersRead(isKey: string -> bool, peers: seq<Peer>, seen: set<string>)
    requires KeyLaws(isKey)
    ensures var kept := KeptPeers(isKey, peers, seen);
            ReadPeers(isKey, PeerSections(isKey, kept)) == NormalPeers(isKey, kept)
    decreases |peers|
  {
    if peers != [] {
      if Kept(isKey, seen, peers[0]) {
        var rest := KeptPeers(isKey, peers[1..], seen + {Trim(peers[0].publicKey)});
        PeerReads(isKey, peers[0], seen);
        PeersRead(isKey, peers[1..], seen + {Trim(peers[0].publicKey)});
        var kept := [peers[0]] + rest;
        assert kept[1..] == rest;
        assert PeerSections(isKey, kept)[1..] == PeerSections(isKey, rest);
      } else {
        PeersRead(isKey, peers[1..], seen);
      }
    }
  }

  lemma HeaderValues(c: Config, k: Key)
    ensures ValuesOf(HeaderSection(c), k) ==
      match k
      case PrivateKey => [Trim(c.privateKey)]
      case Address => [Trim(c.address)]
      case Mtu => [Trim(Decimal(MtuOf(c)))]
      case _ => []
  {
    var pairs := HeaderPairs(c);
    SectionValues("interface", pairs, k);
    assert pairs[1..][1..] == [pairs[2]];
    One(pairs[2], k);
    assert Lookup(pairs[1..], k) == (if k == Address then [Trim(c.address)] else []) + Lookup([pairs[2]], k);
  }

  lemma HeaderReads(c: Config)
    ensures JoinField(HeaderSection(c), PrivateKey) == Trim(c.privateKey)
    ensures ValuesOf(HeaderSection(c), Address) == [Trim(c.address)]
  {
    HeaderValues(c, PrivateKey);
    HeaderValues(c, Address);
    TrimIsTight(c.privateKey);
  }

  lemma AddressNotEmpty(values: seq<string>)
    ensures var a := FirstIpv4Cidr(values); a.Some? ==> a.value != ""
    decreases |values|
  {
    if values != [] {
      CidrNotEmpty(Fields(values[0], ','));
      AddressNotEmpty(values[1..]);
    }
  }

  lemma {:induction false} CidrNotEmpty(parts: seq<string>)
    ensures var a := FirstCidrOf(parts); a.Some? ==> a.value != ""
  {
    if parts != [] {
      CidrNotEmpty(parts[1..]);
    }
  }

  /**
    For every configuration whose fields are single lines: reading what was printed gives its normal
    form, and when there is none, the error names the first thing that is missing.
  */
  lemma RoundTrip(isKey: string -> bool, c: Config)
    requires KeyLaws(isKey) && SingleLine(c)
    ensures Parse(isKey, Conf(isKey, c)) == Normal(isKey, c)
  {
    var kept := KeptPeers(isKey, c.peers, {});
    var iface, peers := HeaderSection(c), PeerSections(isKey, kept);
    var sections := [iface] + peers;
    PrintedSections(isKey, c);
    HeaderReads(c);
    AddressNotEmpty([Trim(c.address)]);
    PeersRead(isKey, c.peers, {});
    assert sections[1..] == peers;
    assert iface.name != "peer" && FindInterface(sections) == Some(iface);
  }
}
