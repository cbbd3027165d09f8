/** The WireGuard configuration printer and parser of `lib/wireguard-conf.ts`. */
module WireguardConf {
  import opened Text

  datatype Peer = Peer(
    publicKey: string,
    endpoint: Option<string>,
    allowedIPs: string,
    keepalive: Option<int>,
    presharedKey: Option<string>)

  datatype Config = Config(privateKey: string, address: string, peers: seq<Peer>, mtu: Option<int>)

  datatype Parsed = Parsed(privateKey: string, address: string, peers: seq<Peer>)

  datatype Error = MissingInterface | InvalidPrivateKey | MissingAddress | MissingPeer | FieldNotAList

  /** `isWireguardKey` decodes base 64 after trimming; no key is empty. */
  ghost predicate KeyLaws(isKey: string -> bool) {
    !isKey("") && forall s :: isKey(s) == isKey(Trim(s))
  }

  const WG_CLIENT_MTU: int := 1280

  // ---------- printing ----------

  /** A number as it appears in the text. */
  function Decimal(n: int): string {
    if n < 0 then "-" + Numeral(-n) else Numeral(n)
  }

  /** The names of the fields that the printer writes or the parser looks up. */
  datatype Key =
    | PrivateKey | Address | Mtu | PublicKey | PresharedKey | Endpoint | AllowedIPs | PersistentKeepalive

  function KeyText(k: Key): string {
    match k
    case PrivateKey => "PrivateKey"
    case Address => "Address"
    case Mtu => "MTU"
    case PublicKey => "PublicKey"
    case PresharedKey => "PresharedKey"
    case Endpoint => "Endpoint"
    case AllowedIPs => "AllowedIPs"
    case PersistentKeepalive => "PersistentKeepalive"
  }

  /** The name under which the parser files the values. */
  function FieldName(k: Key): string {
    match k
    case PrivateKey => "privatekey"
    case Address => "address"
    case Mtu => "mtu"
    case PublicKey => "publickey"
    case PresharedKey => "presharedkey"
    case Endpoint => "endpoint"
    case AllowedIPs => "allowedips"
    case PersistentKeepalive => "persistentkeepalive"
  }

  function Field(k: Key, value: string): string {
    KeyText(k) + " = " + value
  }

  function MtuOf(c: Config): int {
    if c.mtu.Some? && 1280 <= c.mtu.value <= 1420 then c.mtu.value else WG_CLIENT_MTU
  }

  function Header(c: Config): seq<string> {
    ["[Interface]", Field(PrivateKey, c.privateKey), Field(Address, c.address), Field(Mtu, Decimal(MtuOf(c))), ""]
  }

  predicate Kept(isKey: string -> bool, seen: set<string>, p: Peer) {
    isKey(Trim(p.publicKey)) && Trim(p.publicKey) !in seen && Trim(p.allowedIPs) != ""
  }

  function PresharedLine(isKey: string -> bool, p: Peer): seq<string> {
    if p.presharedKey.Some? && p.presharedKey.value != "" && isKey(p.presharedKey.value)
    then [Field(PresharedKey, Trim(p.presharedKey.value))] else []
  }

  function EndpointLine(p: Peer): seq<string> {
    if p.endpoint.Some? && Trim(p.endpoint.value) != "" then [Field(Endpoint, Trim(p.endpoint.value))] else []
  }

  function Keepalive(p: Peer): int {
    if p.keepalive.Some? then p.keepalive.value else 25
  }

  function KeepaliveLine(p: Peer): seq<string> {
    if Keepalive(p) > 0 then [Field(PersistentKeepalive, Decimal(Keepalive(p)))] else []
  }

  function PeerLines(isKey: string -> bool, p: Peer): seq<string> {
    ["[Peer]", Field(PublicKey, Trim(p.publicKey))]
    + PresharedLine(isKey, p) + EndpointLine(p)
    + [Field(AllowedIPs, Trim(p.allowedIPs))]
    + KeepaliveLine(p) + [""]
  }

  /** The peers that are written: valid keys with allowed addresses, each key once. */
  function KeptPeers(isKey: string -> bool, peers: seq<Peer>, seen: set<string>): seq<Peer> {
    if peers == [] then []
    else if Kept(isKey, seen, peers[0]) then
      [peers[0]] + KeptPeers(isKey, peers[1..], seen + {Trim(peers[0].publicKey)})
    else KeptPeers(isKey, peers[1..], seen)
  }

  function AllPeerLines(isKey: string -> bool, kept: seq<Peer>): seq<string> {
    if kept == [] then [] else PeerLines(isKey, kept[0]) + AllPeerLines(isKey, kept[1..])
  }

  function ConfLines(isKey: string -> bool, c: Config): seq<string> {
    Header(c) + AllPeerLines(isKey, KeptPeers(isKey, c.peers, {}))
  }

  function Conf(isKey: string -> bool, c: Config): string {
    Trim(Join(ConfLines(isKey, c), "\n")) + "\n"
  }

  method BuildWg0Conf(isKey: string -> bool, c: Config) returns (r: string)
    ensures r == Conf(isKey, c)
  {
    var mtu := if c.mtu.Some? && c.mtu.value >= 1280 && c.mtu.value <= 1420 then c.mtu.value else WG_CLIENT_MTU;
    var lines := ["[Interface]", Field(PrivateKey, c.privateKey), Field(Address, c.address),
                  Field(Mtu, Decimal(mtu)), ""];
    var seen: set<string> := {};
    ghost var whole := ConfLines(isKey, c);
    assert c.peers[0..] == c.peers;
    for n := 0 to |c.peers|
      invariant lines + AllPeerLines(isKey, KeptPeers(isKey, c.peers[n..], seen)) == whole
    {
      assert c.peers[n..][1..] == c.peers[n + 1..];
      var peer := c.peers[n];
      var key := Trim(peer.publicKey);
      if !isKey(key) || key in seen {
        continue;
      }
      var allowed := Trim(peer.allowedIPs);
      if allowed == "" {
        continue;
      }
      ghost var rest := KeptPeers(isKey, c.peers[n + 1..], seen + {key});
      assert ([peer] + rest)[1..] == rest;
      ConcatAssociates(lines, PeerLines(isKey, peer), AllPeerLines(isKey, rest));
      seen := seen + {key};
      lines := PushPeer(isKey, lines, peer);
    }
    assert c.peers[|c.peers|..] == [];
    assert lines + [] == lines;
    r := Trim(Join(lines, "\n")) + "\n";
  }

  /** The lines of one peer. */
  method PushPeer(isKey: string -> bool, lines: seq<string>, peer: Peer) returns (r: seq<string>)
    ensures r == lines + PeerLines(isKey, peer)
  {
    var own := ["[Peer]", Field(PublicKey, Trim(peer.publicKey))];
    if peer.presharedKey.Some? && peer.presharedKey.value != "" && isKey(peer.presharedKey.value) {
      own := own + [Field(PresharedKey, Trim(peer.presharedKey.value))];
    }
    assert own == ["[Peer]", Field(PublicKey, Trim(peer.publicKey))] + PresharedLine(isKey, peer);
    own := PushTail(own, peer);
    r := lines + own;
  }

  method PushTail(own: seq<string>, peer: Peer) returns (r: seq<string>)
    ensures r == own + EndpointLine(peer) + [Field(AllowedIPs, Trim(peer.allowedIPs))] + KeepaliveLine(peer) + [""]
  {
    r := own;
    if peer.endpoint.Some? && Trim(peer.endpoint.value) != "" {
      r := r + [Field(Endpoint, Trim(peer.endpoint.value))];
    } else {
      assert own + [] == own;
    }
    r := r + [Field(AllowedIPs, Trim(peer.allowedIPs))];
    var ka := if peer.keepalive.Some? then peer.keepalive.value else 25;
    if ka > 0 {
      r := r + [Field(PersistentKeepalive, Decimal(ka))];
    } else {
      assert r + [] == r;
    }
    r := r + [""];
  }

  // ---------- sections and fields ----------

  datatype Section = Section(name: string, fields: map<string, seq<string>>)

  /** `/^\[([^\]]+)]\s*$/` on a trimmed line. */
  predicate IsHeading(l: string) {
    |l| > 2 && l[0] == '[' && l[|l| - 1] == ']' && ']' !in l[1..|l| - 1]
  }

  /** Names that a plain object already has, and that are not lists. */
  predicate Inherited(key: string) {
    key == "constructor" || key == "__proto__"
  }

  function Push(fields: map<string, seq<string>>, key: string, value: string): map<string, seq<string>> {
    fields[key := (if key in fields then fields[key] else []) + [value]]
  }

  /** What a trimmed line that is not blank does to the sections read so far. */
  function AddLine(sections: seq<Section>, l: string): Result<seq<Section>, Error>
    requires l != []
  {
    if l[0] == '#' || l[0] == ';' then Ok(sections)
    else if IsHeading(l) then Ok(sections + [Section(LowerName(Trim(l[1..|l| - 1])), map[])])
    else if sections == [] then Ok(sections)
    else
      var eq := IndexOf(l, '=');
      if eq < 1 || eq == |l| then Ok(sections)
      else
        var key, value := LowerName(Trim(l[..eq])), Trim(l[eq + 1..]);
        var current := sections[|sections| - 1];
        if Inherited(key) then Err(FieldNotAList)
        else Ok(sections[|sections| - 1 := current.(fields := Push(current.fields, key, value))])
  }

  function AddLines(sections: seq<Section>, ls: seq<string>): Result<seq<Section>, Error>
    decreases |ls|
  {
    if ls == [] then Ok(sections)
    else if ls[0] == [] then AddLines(sections, ls[1..])
    else
      var r := AddLine(sections, ls[0]);
      if r.Err? then r else AddLines(r.value, ls[1..])
  }

  function Sections(raw: string): Result<seq<Section>, Error> {
    AddLines([], ContentLines(NormCrlf(StripBom(raw))))
  }

  lemma {:induction false} AddLinesSkipsBlank(sections: seq<Section>, ls: seq<string>)
    ensures AddLines(sections, NonEmpty(ls)) == AddLines(sections, ls)
    decreases |ls|
  {
    if ls != [] {
      if ls[0] == [] {
        AddLinesSkipsBlank(sections, ls[1..]);
      } else {
        assert NonEmpty(ls)[1..] == NonEmpty(ls[1..]);
        var r := AddLine(sections, ls[0]);
        if r.Ok? {
          AddLinesSkipsBlank(r.value, ls[1..]);
        }
      }
    }
  }

  method ParseIniSections(raw: string) returns (r: Result<seq<Section>, Error>)
    ensures r == Sections(raw)
  {
    var sections: seq<Section> := [];
    var text := NormCrlf(StripBom(raw));
    var lines := Split(text, '\n');
    AddLinesSkipsBlank([], TrimAll(lines));
    assert lines[0..] == lines;
    for n := 0 to |lines|
      invariant Sections(raw) == AddLines(sections, TrimAll(lines[n..]))
    {
      assert TrimAll(lines[n..])[1..] == TrimAll(lines[n + 1..]);
      var trimmed := Trim(lines[n]);
      if trimmed == [] {
        continue;
      }
      var added := AddLine(sections, trimmed);
      if added.Err? {
        return added;
      }
      sections := added.value;
    }
    r := Ok(sections);
  }

  // ---------- reading the values ----------

  predicate OctetDigits(s: string) {
    1 <= |s| <= 3 && forall i :: 0 <= i < |s| ==> IsDigit(s[i])
  }

  /** `/^(\d{1,3}\.){3}\d{1,3}$/` */
  predicate IsDottedQuad(s: string) {
    var parts := Split(s, '.');
    |parts| == 4 && forall i :: 0 <= i < 4 ==> OctetDigits(parts[i])
  }

  function HostOf(part: string): string {
    Trim(Split(part, '/')[0])
  }

  function FirstCidrOf(parts: seq<string>): Option<string> {
    if parts == [] then None
    else if IsDottedQuad(HostOf(parts[0])) then
      Some(if '/' in parts[0] then parts[0] else HostOf(parts[0]) + "/32")
    else FirstCidrOf(parts[1..])
  }

  function FirstIpv4Cidr(values: seq<string>): Option<string> {
    if values == [] then None
    else
      var found := FirstCidrOf(Fields(values[0], ','));
      if found.Some? then found else FirstIpv4Cidr(values[1..])
  }

  function ValuesOf(s: Section, k: Key): seq<string> {
    if FieldName(k) in s.fields then s.fields[FieldName(k)] else []
  }

  function JoinField(s: Section, k: Key): string {
    Trim(Join(ValuesOf(s, k), ", "))
  }

  function NonBlank(s: string): Option<string> {
    if s == "" then None else Some(s)
  }

  function ReadKeepalive(raw: string): Option<int> {
    if raw == "" then None
    else
      var n := ParseInt(raw);
      if n.Some? && n.value >= 0 then n else None
  }

  function ReadPeer(isKey: string -> bool, s: Section): Option<Peer> {
    var publicKey, allowed := JoinField(s, PublicKey), JoinField(s, AllowedIPs);
    if !isKey(publicKey) || allowed == "" then None
    else
      var psk := JoinField(s, PresharedKey);
      Some(Peer(publicKey, NonBlank(JoinField(s, Endpoint)), allowed,
                ReadKeepalive(JoinField(s, PersistentKeepalive)),
                if isKey(psk) then Some(psk) else None))
  }

  function ReadPeers(isKey: string -> bool, sections: seq<Section>): seq<Peer> {
    if sections == [] then []
    else
      var rest := ReadPeers(isKey, sections[1..]);
      if sections[0].name != "peer" then rest
      else
        var p := ReadPeer(isKey, sections[0]);
        if p.Some? then [p.value] + rest else rest
  }

  function FindInterface(sections: seq<Section>): Option<Section> {
    if sections == [] then None
    else if sections[0].name == "interface" then Some(sections[0])
    else FindInterface(sections[1..])
  }

  function ReadSections(isKey: string -> bool, sections: seq<Section>): Result<Parsed, Error> {
    var iface := FindInterface(sections);
    if iface.None? then Err(MissingInterface)
    else
      var privateKey := JoinField(iface.value, PrivateKey);
      if !isKey(privateKey) then Err(InvalidPrivateKey)
      else
        var address := FirstIpv4Cidr(ValuesOf(iface.value, Address));
        if address.None? || address.value == "" then Err(MissingAddress)
        else
          var peers := ReadPeers(isKey, sections);
          if peers == [] then Err(MissingPeer) else Ok(Parsed(privateKey, address.value, peers))
  }

  function Parse(isKey: string -> bool, raw: string): Result<Parsed, Error> {
    var sections := Sections(raw);
    if sections.Err? then Err(sections.error) else ReadSections(isKey, sections.value)
  }

  method ParseWgQuickConf(isKey: string -> bool, raw: string) returns (r: Result<Parsed, Error>)
    ensures r == Parse(isKey, raw)
  {
    var parsed := ParseIniSections(raw);
    if parsed.Err? {
      return Err(parsed.error);
    }
    var sections := parsed.value;
    var iface := FindInterface(sections);
    if iface.None? {
      return Err(MissingInterface);
    }
    var privateKey := JoinField(iface.value, PrivateKey);
    if !isKey(privateKey) {
      return Err(InvalidPrivateKey);
    }
    var address := FirstIpv4Cidr(ValuesOf(iface.value, Address));
    if address.None? || address.value == "" {
      return Err(MissingAddress);
    }
    var peers: seq<Peer> := [];
    assert sections[0..] == sections;
    for n := 0 to |sections|
      invariant peers + ReadPeers(isKey, sections[n..]) == ReadPeers(isKey, sections)
    {
      assert sections[n..][1..] == sections[n + 1..];
      if sections[n].name == "peer" {
        var p := ReadPeer(isKey, sections[n]);
        if p.Some? {
          ConcatAssociates(peers, [p.value], ReadPeers(isKey, sections[n + 1..]));
          peers := peers + [p.value];
        }
      }
    }
    assert sections[|sections|..] == [];
    assert peers + [] == peers;
    if peers == [] {
      return Err(MissingPeer);
    }
    r := Ok(Parsed(privateKey, address.value, peers));
  }
}
