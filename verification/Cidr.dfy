/** IPv4 prefixes and the AllowedIPs list of `lib/wireguard-conf.ts`. */
module Cidr {
  import opened Text
  import opened Words
  import opened WireguardConf

  // ---------- addresses ----------

  function Octets(parts: seq<string>): Option<seq<nat>> {
    if parts == [] then Some([])
    else
      var head, tail := ParseInt(parts[0]), Octets(parts[1..]);
      if head.Some? && 0 <= head.value <= 255 && tail.Some? then Some([head.value] + tail.value) else None
  }

  lemma {:induction false} OctetsShape(parts: seq<string>)
    ensures var o := Octets(parts);
            o.Some? ==> |o.value| == |parts| && forall i :: 0 <= i < |parts| ==> o.value[i] <= 255
  {
    if parts != [] {
      OctetsShape(parts[1..]);
    }
  }

  /** `((a << 24) | (b << 16) | (c << 8) | d) >>> 0` on octets. */
  function FourOctets(a: nat, b: nat, c: nat, d: nat): nat {
    ToUint32(Shl(a, 24) + Shl(b, 16) + Shl(c, 8) + d)
  }

  function Ipv4ToInt(ip: string): (r: Option<nat>)
    ensures r.Some? ==> r.value < TWO_32
  {
    var parts := Split(ip, '.');
    var o := Octets(parts);
    if |parts| != 4 || o.None? then None
    else
      OctetsShape(parts);
      Some(FourOctets(o.value[0], o.value[1], o.value[2], o.value[3]))
  }

  /** A shift by a constant amount, seen on the bit pattern. */
  lemma ShlPattern(x: nat, k: nat, p: nat)
    requires x <= 255 && k < 32 && p == Pow2(k)
    ensures Shl(x, k) == ToInt32(x * p)
  {
    assert ToInt32(x) == x;
  }

  lemma SumOfPatterns(x: int, y: int, z: int, d: int)
    ensures ToUint32(ToInt32(x) + ToInt32(y) + ToInt32(z) + d) == ToUint32(x + y + z + d)
  {
  }

  lemma FourOctetsValue(a: nat, b: nat, c: nat, d: nat)
    requires a <= 255 && b <= 255 && c <= 255 && d <= 255
    ensures FourOctets(a, b, c, d) == a * 0x100_0000 + b * 0x1_0000 + c * 0x100 + d < TWO_32
  {
    Powers();
    ShlPattern(a, 24, 0x100_0000);
    ShlPattern(b, 16, 0x1_0000);
    ShlPattern(c, 8, 0x100);
    SumOfPatterns(a * 0x100_0000, b * 0x1_0000, c * 0x100, d);
    WordFits(a, b, c, d);
  }

  lemma WordFits(a: nat, b: nat, c: nat, d: nat)
    requires a <= 255 && b <= 255 && c <= 255 && d <= 255
    ensures var w := a * 0x100_0000 + b * 0x1_0000 + c * 0x100 + d; w < TWO_32 && ToUint32(w) == w
  {
  }

  /** The four octets that a text names. */
  function OctetsOf(ip: string): Option<seq<nat>> {
    if |Split(ip, '.')| == 4 then Octets(Split(ip, '.')) else None
  }

  lemma ValueOfOctets(ip: string)
    ensures Ipv4ToInt(ip).Some? <==> OctetsOf(ip).Some?
    ensures var o := OctetsOf(ip);
            o.Some? ==> |o.value| == 4 && (forall i :: 0 <= i < 4 ==> o.value[i] <= 255)
                        && Ipv4ToInt(ip).value
                           == o.value[0] * 0x100_0000 + o.value[1] * 0x1_0000 + o.value[2] * 0x100 + o.value[3]
  {
    OctetsShape(Split(ip, '.'));
    var o := OctetsOf(ip);
    if o.Some? {
      FourOctetsValue(o.value[0], o.value[1], o.value[2], o.value[3]);
    }
  }

  lemma DigitsAgree(a: seq<nat>, b: seq<nat>)
    requires |a| == 4 && |b| == 4 && forall i :: 0 <= i < 4 ==> a[i] <= 255 && b[i] <= 255
    requires a[0] * 0x100_0000 + a[1] * 0x1_0000 + a[2] * 0x100 + a[3]
          == b[0] * 0x100_0000 + b[1] * 0x1_0000 + b[2] * 0x100 + b[3]
    ensures a == b
  {
    assert a[0] == b[0];
    assert a[1] == b[1];
    assert a[2] == b[2];
  }

  /** Two texts give one number just when they name the same four octets. */
  lemma SameAddressIff(s: string, t: string)
    ensures Ipv4ToInt(s) == Ipv4ToInt(t) <==> OctetsOf(s) == OctetsOf(t)
  {
    ValueOfOctets(s);
    ValueOfOctets(t);
    if Ipv4ToInt(s) == Ipv4ToInt(t) && OctetsOf(s).Some? {
      DigitsAgree(OctetsOf(s).value, OctetsOf(t).value);
    }
  }

  // ---------- containment ----------

  /** `prefix === 32 ? 0xffffffff : (~((1 << (32 - prefix)) - 1)) >>> 0` */
  function Mask(prefix: nat): nat
    requires 0 < prefix <= 32
  {
    if prefix == 32 then 0xffff_ffff else ToUint32(Not(Shl(1, 32 - prefix) - 1))
  }

  lemma MaskOf(p: nat)
    requires 0 < p <= 0x8000_0000
    ensures ToUint32(Not(ToInt32(p) - 1)) == TWO_32 - p
  {
  }

  lemma MaskValue(prefix: nat)
    requires 0 < prefix <= 32
    ensures Pow2(32 - prefix) <= Pow2(32) == TWO_32 && Mask(prefix) == Pow2(32) - Pow2(32 - prefix)
  {
    var k := 32 - prefix;
    Powers();
    Pow2Grows(k, 31);
    if prefix < 32 {
      ShlPattern(1, k, Pow2(k));
      MaskOf(Pow2(k));
    }
  }

  /** The network and the prefix length that the text of a CIDR names. */
  function ParseCidr(cidr: string): (r: Option<(nat, nat)>)
    ensures r.Some? ==> r.value.0 < TWO_32 && r.value.1 <= 32
  {
    var trimmed := Trim(cidr);
    var slash := IndexOf(trimmed, '/');
    var net := Ipv4ToInt(Trim(trimmed[..slash]));
    var prefix := if slash == |trimmed| then Some(32) else ParseInt(trimmed[slash + 1..]);
    if trimmed == [] || net.None? || prefix.None? || prefix.value < 0 || prefix.value > 32 then None
    else Some((net.value, prefix.value))
  }

  /** Two addresses are in one network when they agree above its host bits. */
  predicate SameNetwork(a: nat, b: nat, prefix: nat)
    requires prefix <= 32
  {
    a / Pow2(32 - prefix) == b / Pow2(32 - prefix)
  }

  /** What containment means: both texts name addresses, and they agree after dropping the host bits. */
  predicate Contains(cidr: string, ip: string) {
    var c, a := ParseCidr(cidr), Ipv4ToInt(Trim(ip));
    c.Some? && a.Some? && SameNetwork(c.value.0, a.value, c.value.1)
  }

  lemma AndPattern(a: nat, m: nat, v: nat)
    requires a < TWO_32 && m < TWO_32 && v < TWO_32 && And(a, m, 32) == v
    ensures ToUint32(BitAnd(a, m)) == v
  {
    assert ToUint32(a) == a && ToUint32(m) == m;
  }

  lemma MaskedValue(a: nat, prefix: nat)
    requires a < TWO_32 && 0 < prefix <= 32
    ensures ToUint32(BitAnd(a, Mask(prefix))) == a - a % Pow2(32 - prefix)
  {
    MaskValue(prefix);
    AndHighMask(a, 32 - prefix, 32);
    AndPattern(a, Mask(prefix), a - a % Pow2(32 - prefix));
  }

  lemma DroppedBits(a: nat, b: nat, p: nat)
    requires p > 0
    ensures a - a % p == b - b % p <==> a / p == b / p
  {
    var q, r := a / p, b / p;
    assert a == p * q + a % p && b == p * r + b % p;
    assert p * (q - r) == p * q - p * r;
    MulAway(p, q - r);
  }

  /** The masked comparison of the code, in signed 32-bit arithmetic, is agreement after division. */
  lemma SameNetworkIff(a: nat, b: nat, prefix: nat)
    requires a < TWO_32 && b < TWO_32 && prefix <= 32
    ensures prefix == 0 ==> SameNetwork(a, b, prefix)
    ensures prefix > 0 ==> (BitAnd(a, Mask(prefix)) == BitAnd(b, Mask(prefix)) <==> SameNetwork(a, b, prefix))
  {
    Powers();
    if prefix > 0 {
      MaskedValue(a, prefix);
      MaskedValue(b, prefix);
      DroppedBits(a, b, Pow2(32 - prefix));
      Int32Injective(And(ToUint32(a), ToUint32(Mask(prefix)), 32), And(ToUint32(b), ToUint32(Mask(prefix)), 32));
    }
  }

  lemma Int32Injective(x: int, y: int)
    ensures ToInt32(x) == ToInt32(y) <==> ToUint32(x) == ToUint32(y)
  {
  }

  /** The comparison under the mask. */
  method MatchUnderMask(net: nat, ip: nat, prefix: nat) returns (r: bool)
    requires net < TWO_32 && ip < TWO_32 && prefix <= 32
    ensures r <==> SameNetwork(net, ip, prefix)
  {
    SameNetworkIff(net, ip, prefix);
    if prefix == 0 {
      return true;
    }
    var mask := Mask(prefix);
    r := BitAnd(net, mask) == BitAnd(ip, mask);
  }

  method CidrContainsIpv4(cidr: string, ip: string) returns (r: bool)
    ensures r <==> Contains(cidr, ip)
  {
    var c := ParseCidr(cidr);
    var a := Ipv4ToInt(Trim(ip));
    if c.None? || a.None? {
      return false;
    }
    var (net, prefix) := c.value;
    r := MatchUnderMask(net, a.value, prefix);
  }

  /** `parts.some((cidr) => cidrContainsIpv4(cidr, host))` */
  method SomeContains(parts: seq<string>, host: string) returns (r: bool)
    ensures r <==> AnyContains(parts, host)
  {
    r := false;
    for i := 0 to |parts|
      invariant r <==> AnyContains(parts[..i], host)
    {
      AnyContainsConcat(parts[..i], parts[i], host);
      assert parts[..i + 1] == parts[..i] + [parts[i]];
      var c := CidrContainsIpv4(parts[i], host);
      r := r || c;
    }
    assert parts[..|parts|] == parts;
  }

  // ---------- lists of prefixes ----------

  /** Some prefix of a comma-separated list contains the address. */
  ghost predicate Covers(list: string, ip: string) {
    AnyContains(Fields(list, ','), ip)
  }

  predicate AnyContains(parts: seq<string>, ip: string) {
    exists i :: 0 <= i < |parts| && Contains(parts[i], ip)
  }

  function HostPart(ip: string): string {
    Trim(Split(Trim(ip), '/')[0])
  }

  /** `interfaceIpv4` finds a dotted quad of up to three digits each; it does not bound the octets. */
  predicate HasQuad(host: string) {
    IsDottedQuad(HostPart(host))
  }

  function Ensured(list: string, ip: string): string {
    var host, parts := HostPart(ip), Fields(list, ',');
    if !HasQuad(host) then Trim(list)
    else if AnyContains(parts, host) then Join(parts, ", ")
    else Join(parts + [host + "/32"], ", ")
  }

  method EnsureIpInAllowedIps(list: string, ip: string) returns (r: string)
    ensures r == Ensured(list, ip)
  {
    var host := Trim(Split(Trim(ip), '/')[0]);
    if !HasQuad(host) {
      return Trim(list);
    }
    var parts := Fields(list, ',');
    var covered := SomeContains(parts, host);
    if covered {
      return Join(parts, ", ");
    }
    r := Join(parts + [host + "/32"], ", ");
  }

  ghost predicate CleanParts(parts: seq<string>) {
    forall i :: 0 <= i < |parts| ==> parts[i] != [] && Tight(parts[i]) && ',' !in parts[i]
  }

  lemma ListParts(list: string)
    ensures CleanParts(Fields(list, ','))
  {
    FieldsAreClean(list, ',');
    var parts := Fields(list, ',');
    forall i | 0 <= i < |parts|
      ensures parts[i] != [] && Tight(parts[i]) && ',' !in parts[i]
    {
      assert parts[i] in parts;
    }
  }

  /** A printed list reads back as its parts. */
  lemma {:induction false} PartsOfJoin(parts: seq<string>)
    requires CleanParts(parts)
    ensures Fields(Join(parts, ", "), ',') == parts
  {
    if parts == [] {
      FieldsWhole([], ',');
      TightIsTrimmed([]);
    } else {
      FieldsWhole(parts[0], ',');
      TightIsTrimmed(parts[0]);
      if |parts| > 1 {
        var rest := Join(parts[1..], ", ");
        PartsOfJoin(parts[1..]);
        FieldsHead(' ', rest, ',');
        FieldsAt(parts[0], ',', " " + rest);
        assert parts[0] + ", " + rest == parts[0] + [','] + (" " + rest);
        assert parts == [parts[0]] + parts[1..];
      } else {
        assert parts == [parts[0]];
      }
    }
  }

  // ---------- a host is covered by its own /32 ----------

  lemma {:induction false} SplitHasAll(s: string, c: char, x: char)
    requires x in s && x != c
    ensures exists i :: 0 <= i < |Split(s, c)| && x in Split(s, c)[i]
  {
    var parts := Split(s, c);
    if s[0] == x {
      assert x in parts[0];
    } else {
      SplitHasAll(s[1..], c, x);
      var rest := Split(s[1..], c);
      var i :| 0 <= i < |rest| && x in rest[i];
      if s[0] == c {
        assert parts[i + 1] == rest[i];
      } else if i > 0 {
        assert parts[i] == rest[i];
      } else {
        assert parts[0] == [s[0]] + rest[0];
      }
    }
  }

  lemma QuadChars(s: string, x: char)
    requires IsDottedQuad(s) && x in s
    ensures IsDigit(x) || x == '.'
  {
    if x != '.' {
      SplitHasAll(s, '.', x);
    }
  }

  lemma QuadIsClean(s: string)
    requires IsDottedQuad(s)
    ensures s != [] && Tight(s) && ',' !in s && '/' !in s
  {
    if s != [] {
      QuadChars(s, s[0]);
      QuadChars(s, s[|s| - 1]);
    }
    if ',' in s {
      QuadChars(s, ',');
    }
    if '/' in s {
      QuadChars(s, '/');
    }
  }

  lemma HostOfQuad(ip: string)
    requires HasQuad(HostPart(ip))
    ensures var h := HostPart(ip); IsDottedQuad(h) && HostPart(h) == h
  {
    var h := HostPart(ip);
    SplitPartsLackSeparator(Trim(ip), '/');
    TrimWithin(Split(Trim(ip), '/')[0], '/');
    TrimIsTight(Split(Trim(ip), '/')[0]);
    SplitWhole(h, '/');
  }

  lemma ThirtyTwo()
    ensures ParseInt("32") == Some(32) && "32" != [] && ',' !in "32" && '/' !in "32"
  {
    assert Numeral(3) == "3" && Numeral(32) == "32";
    ParseIntOfNumeral(32);
  }

  lemma PairIsTight(h: string, p: string)
    requires h != [] && Tight(h) && p != [] && !IsSpace(p[|p| - 1])
    ensures Trim(h + ['/'] + p) == h + ['/'] + p && Trim(h) == h
  {
    TightIsTrimmed(h + ['/'] + p);
    TightIsTrimmed(h);
  }

  lemma CutAtSlash(h: string, p: string)
    requires '/' !in h
    ensures var c := h + ['/'] + p; IndexOf(c, '/') == |h| && c[..|h|] == h && c[|h| + 1..] == p
  {
    IndexOfFirst(h, '/', p);
  }

  /** A prefix length behind a slash is read as such. */
  lemma ParsePair(h: string, p: string, n: nat)
    requires h != [] && Tight(h) && '/' !in h && p != [] && !IsSpace(p[|p| - 1]) && ParseInt(p) == Some(n) && n <= 32
    ensures ParseCidr(h + ['/'] + p) == if Ipv4ToInt(h).Some? then Some((Ipv4ToInt(h).value, n)) else None
  {
    PairIsTight(h, p);
    CutAtSlash(h, p);
  }

  lemma HostCidr(h: string)
    requires IsDottedQuad(h)
    ensures ParseCidr(h + "/32") == if Ipv4ToInt(h).Some? then Some((Ipv4ToInt(h).value, 32)) else None
    ensures CleanParts([h + "/32"])
  {
    QuadIsClean(h);
    ThirtyTwo();
    var p := "32";
    assert h + "/32" == h + ['/'] + p;
    ParsePair(h, p, 32);
  }

  /** A network of one address holds that address. */
  lemma HostNetwork(cidr: string, ip: string, a: nat)
    requires ParseCidr(cidr) == Some((a, 32))
    ensures Contains(cidr, ip) <==> Ipv4ToInt(Trim(ip)) == Some(a)
  {
    assert Pow2(0) == 1;
  }

  /** The /32 of a host contains that address, and no other; none at all if an octet is too large. */
  lemma HostCidrContains(h: string, ip: string)
    requires IsDottedQuad(h)
    ensures Contains(h + "/32", ip) <==> OctetsOf(h).Some? && OctetsOf(Trim(ip)) == OctetsOf(h)
  {
    var cidr := h + "/32";
    HostCidr(h);
    ValueOfOctets(h);
    SameAddressIff(Trim(ip), h);
    if Ipv4ToInt(h).Some? {
      HostNetwork(cidr, ip, Ipv4ToInt(h).value);
    } else {
      assert ParseCidr(cidr).None?;
    }
  }

  // ---------- the theorems ----------

  lemma EnsuredParts(list: string, ip: string)
    ensures var host, parts := HostPart(ip), Fields(list, ',');
            Fields(Ensured(list, ip), ',') ==
              if !HasQuad(host) || AnyContains(parts, host) then parts else parts + [host + "/32"]
  {
    var host, parts := HostPart(ip), Fields(list, ',');
    ListParts(list);
    if !HasQuad(host) {
      FieldsOfTrimmed(list, ',');
    } else if AnyContains(parts, host) {
      PartsOfJoin(parts);
    } else {
      HostOfQuad(ip);
      HostCidr(host);
      PartsOfJoin(parts + [host + "/32"]);
    }
  }

  lemma AnyContainsConcat(a: seq<string>, x: string, ip: string)
    ensures AnyContains(a + [x], ip) <==> AnyContains(a, ip) || Contains(x, ip)
  {
    if AnyContains(a, ip) {
      var i :| 0 <= i < |a| && Contains(a[i], ip);
      assert (a + [x])[i] == a[i];
    }
    if Contains(x, ip) {
      assert (a + [x])[|a|] == x;
    }
  }

  /** The new list covers what the old one covered and, if the host was not covered, exactly the host more. */
  lemma EnsuredCovers(list: string, ip: string, addr: string)
    ensures Covers(Ensured(list, ip), addr) <==>
      || Covers(list, addr)
      || (HasQuad(HostPart(ip)) && OctetsOf(HostPart(ip)).Some? && OctetsOf(Trim(addr)) == OctetsOf(HostPart(ip))
          && !Covers(list, HostPart(ip)))
  {
    var host, parts := HostPart(ip), Fields(list, ',');
    EnsuredParts(list, ip);
    if HasQuad(host) && !AnyContains(parts, host) {
      HostOfQuad(ip);
      AnyContainsConcat(parts, host + "/32", addr);
      HostCidrContains(host, addr);
    }
  }

  /** With octets of at most 255 the host itself is covered afterwards. */
  lemma EnsuredCoversHost(list: string, ip: string)
    requires HasQuad(HostPart(ip)) && OctetsOf(HostPart(ip)).Some?
    ensures Covers(Ensured(list, ip), HostPart(ip))
  {
    HostOfQuad(ip);
    QuadIsClean(HostPart(ip));
    TightIsTrimmed(HostPart(ip));
    EnsuredCovers(list, ip, HostPart(ip));
  }

  /** Ensuring twice is ensuring once on exactly the inputs without an octet above 255. */
  lemma EnsuredIdempotentIff(list: string, ip: string)
    ensures Ensured(Ensured(list, ip), ip) == Ensured(list, ip) <==>
            !HasQuad(HostPart(ip)) || OctetsOf(HostPart(ip)).Some?
  {
    ValueOfOctets(HostPart(ip));
    var host, parts := HostPart(ip), Fields(list, ',');
    var once := Ensured(list, ip);
    EnsuredParts(list, ip);
    EnsuredParts(once, ip);
    if !HasQuad(host) {
      TrimIsTight(list);
    } else if Ipv4ToInt(host).Some? {
      EnsuredCoversHost(list, ip);
    } else {
      HostOfQuad(ip);
      NoAddressNoCover(parts, host);
      NoAddressNoCover(Fields(once, ','), host);
      assert Fields(Ensured(once, ip), ',') == Fields(once, ',') + [host + "/32"];
    }
  }

  lemma NoAddressNoCover(parts: seq<string>, host: string)
    requires IsDottedQuad(host) && Ipv4ToInt(host).None?
    ensures !AnyContains(parts, host)
  {
    QuadIsClean(host);
    TightIsTrimmed(host);
  }

  // ---------- an address that is added again and again ----------

  lemma SmallNumerals()
    ensures Numeral(256) == "256" && Numeral(0) == "0" && Numeral(1) == "1"
  {
    assert Numeral(2) == "2" && Numeral(25) == "25";
  }

  lemma TooLargeOctet(h: string)
    requires h == Join(["256", "0", "0", "1"], ".")
    ensures IsDottedQuad(h) && Ipv4ToInt(h).None?
  {
    var parts := ["256", "0", "0", "1"];
    SplitOfJoin(parts, '.');
    SmallNumerals();
    ParseIntOfNumeral(256);
    assert Octets(parts).None?;
  }

  /** 256.0.0.1 is taken for an address by the one check and refused by the other. */
  lemma EnsuredNotIdempotent(list: string)
    ensures Ensured(Ensured(list, "256.0.0.1"), "256.0.0.1") != Ensured(list, "256.0.0.1")
  {
    var h := Join(["256", "0", "0", "1"], ".");
    assert h == "256.0.0.1";
    TooLargeOctet(h);
    ValueOfOctets(h);
    QuadIsClean(h);
    TightIsTrimmed(h);
    SplitWhole(h, '/');
    EnsuredIdempotentIff(list, h);
  }
}
