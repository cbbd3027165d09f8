/** Containment of addresses and networks in dotted notation (`lib/wireguard-conf.ts`). */
module CidrSpelled {
  import opened Text
  import opened Words
  import opened WireguardConf
  import opened Cidr

  ghost predicate IsAddress(o: seq<nat>) {
    |o| == 4 && Small(o)
  }

  function Numerals(o: seq<nat>): seq<string> {
    seq(|o|, i requires 0 <= i < |o| => Numeral(o[i]))
  }

  /** The four numbers in dotted notation. */
  function Spelled(o: seq<nat>): string {
    Join(Numerals(o), ".")
  }

  function AddressValue(o: seq<nat>): nat
    requires |o| == 4
  {
    o[0] * 0x100_0000 + o[1] * 0x1_0000 + o[2] * 0x100 + o[3]
  }

  ghost predicate Small(o: seq<nat>) {
    forall i :: 0 <= i < |o| ==> o[i] <= 255
  }

  lemma SmallHead(o: seq<nat>)
    requires o != []
    ensures Small(o) <==> o[0] <= 255 && Small(o[1..])
  {
    assert forall i :: 1 <= i < |o| ==> o[i] == o[1..][i - 1];
  }

  ghost function Checked(o: seq<nat>): Option<seq<nat>> {
    if Small(o) then Some(o) else None
  }

  lemma CheckedCons(head: nat, tail: seq<nat>)
    ensures Checked([head] + tail) ==
            if head <= 255 && Checked(tail).Some? then Some([head] + Checked(tail).value) else None
  {
    var o := [head] + tail;
    assert o[1..] == tail;
    SmallHead(o);
  }

  lemma OctetsCons(head: nat, parts: seq<string>)
    ensures Octets([Numeral(head)] + parts) ==
            if head <= 255 && Octets(parts).Some? then Some([head] + Octets(parts).value) else None
  {
    ParseIntOfNumeral(head);
    assert ([Numeral(head)] + parts)[1..] == parts;
  }

  lemma {:induction false} OctetsOfNumerals(o: seq<nat>)
    ensures Octets(Numerals(o)) == Checked(o)
  {
    if o != [] {
      var head, tail := o[0], o[1..];
      OctetsOfNumerals(tail);
      OctetsCons(head, Numerals(tail));
      CheckedCons(head, tail);
      NumeralsCons(head, tail);
      assert o == [head] + tail;
    }
  }

  lemma NumeralsCons(head: nat, tail: seq<nat>)
    ensures Numerals([head] + tail) == [Numeral(head)] + Numerals(tail)
  {
  }

  lemma SpelledSplits(o: seq<nat>)
    requires o != []
    ensures Split(Spelled(o), '.') == Numerals(o)
  {
    forall i | 0 <= i < |o|
      ensures '.' !in Numerals(o)[i]
    {
      NumeralLacks(o[i], '.');
    }
    SplitOfJoin(Numerals(o), '.');
  }

  /** Four numbers are read as an address just when none is above 255. */
  lemma SpelledIsRead(o: seq<nat>)
    requires |o| == 4
    ensures OctetsOf(Spelled(o)) == if IsAddress(o) then Some(o) else None
    ensures Ipv4ToInt(Spelled(o)) == if IsAddress(o) then Some(AddressValue(o)) else None
  {
    NamesOctets(o);
    ValueOfOctets(Spelled(o));
  }

  lemma NamesOctets(o: seq<nat>)
    requires |o| == 4
    ensures OctetsOf(Spelled(o)) == if IsAddress(o) then Some(o) else None
  {
    SpelledSplits(o);
    OctetsOfNumerals(o);
  }

  lemma ShortNumeral(n: nat)
    ensures |Numeral(n)| <= 3 <==> n <= 999
  {
    assert Pow10(3) == 1000;
    if n <= 999 {
      NumeralLength(n, 3);
    } else {
      assert |Numeral(n / 10 / 10)| >= 2;
      assert |Numeral(n / 10)| >= 3;
    }
  }

  /** Four numbers pass for a dotted quad just when none has more than three digits. */
  lemma QuadIff(o: seq<nat>)
    requires |o| == 4
    ensures IsDottedQuad(Spelled(o)) <==> forall i :: 0 <= i < 4 ==> o[i] <= 999
  {
    SpelledSplits(o);
    forall i | 0 <= i < 4
      ensures OctetDigits(Numerals(o)[i]) <==> o[i] <= 999
    {
      ShortNumeral(o[i]);
    }
  }

  /** The notation holds digits and dots only, and starts and ends with a digit. */
  lemma {:induction false} SpelledIsTight(o: seq<nat>)
    requires o != []
    ensures var s := Spelled(o); s != [] && IsDigit(s[0]) && IsDigit(s[|s| - 1]) && '/' !in s
  {
    NumeralLacks(o[0], '/');
    if |o| > 1 {
      SpelledIsTight(o[1..]);
      assert Numerals(o)[1..] == Numerals(o[1..]);
      var head, tail := Numeral(o[0]), Spelled(o[1..]);
      assert Spelled(o) == head + "." + tail;
      assert (head + "." + tail)[|head + "." + tail| - 1] == tail[|tail| - 1];
    }
  }

  lemma SpelledTrimmed(o: seq<nat>)
    requires o != []
    ensures Tight(Spelled(o)) && Trim(Spelled(o)) == Spelled(o)
  {
    SpelledIsTight(o);
    TightIsTrimmed(Spelled(o));
  }

  lemma PairRead(h: string, p: string, n: nat, v: nat)
    requires h != [] && Tight(h) && '/' !in h && Ipv4ToInt(h) == Some(v)
    requires p != [] && !IsSpace(p[|p| - 1]) && ParseInt(p) == Some(n)
    ensures ParseCidr(h + ['/'] + p) == if n <= 32 then Some((v, n)) else None
  {
    if n <= 32 {
      ParsePair(h, p, n);
    } else {
      WidePrefix(h, p, n);
    }
  }

  lemma NumeralIsRead(n: nat)
    ensures var p := Numeral(n); p != [] && !IsSpace(p[|p| - 1]) && ParseInt(p) == Some(n)
  {
    ParseIntOfNumeral(n);
    var p := Numeral(n);
    assert IsDigit(p[|p| - 1]);
  }

  lemma SpelledNetwork(net: seq<nat>, n: nat)
    requires IsAddress(net)
    ensures ParseCidr(Spelled(net) + ['/'] + Numeral(n)) == if n <= 32 then Some((AddressValue(net), n)) else None
  {
    SpelledIsTight(net);
    SpelledTrimmed(net);
    SpelledIsRead(net);
    NumeralIsRead(n);
    PairRead(Spelled(net), Numeral(n), n, AddressValue(net));
  }

  lemma WidePrefix(h: string, p: string, n: nat)
    requires h != [] && Tight(h) && '/' !in h && p != [] && !IsSpace(p[|p| - 1]) && ParseInt(p) == Some(n) && n > 32
    ensures ParseCidr(h + ['/'] + p).None?
  {
    PairIsTight(h, p);
    CutAtSlash(h, p);
  }

  /**
    A network with a prefix of n bits contains an address just when the two agree above the last 32 - n bits;
    with a prefix above 32 it contains nothing.
  */
  lemma NetworkContainsIff(net: seq<nat>, n: nat, ip: seq<nat>)
    requires IsAddress(net) && IsAddress(ip)
    ensures Contains(Spelled(net) + ['/'] + Numeral(n), Spelled(ip)) <==>
            n <= 32 && AddressValue(net) / Pow2(32 - n) == AddressValue(ip) / Pow2(32 - n)
  {
    SpelledNetwork(net, n);
    SpelledTrimmed(ip);
    SpelledIsRead(ip);
    if n <= 32 {
      NetworkRead(Spelled(net) + ['/'] + Numeral(n), Spelled(ip), AddressValue(net), n, AddressValue(ip));
    } else {
      NoNetworkRead(Spelled(net) + ['/'] + Numeral(n), Spelled(ip));
    }
  }

  lemma NetworkRead(cidr: string, ip: string, v: nat, n: nat, a: nat)
    requires ParseCidr(cidr) == Some((v, n)) && Ipv4ToInt(Trim(ip)) == Some(a)
    ensures n <= 32 && (Contains(cidr, ip) <==> v / Pow2(32 - n) == a / Pow2(32 - n))
  {
  }

  lemma NoNetworkRead(cidr: string, ip: string)
    requires ParseCidr(cidr).None?
    ensures !Contains(cidr, ip)
  {
  }

  /** An address without a prefix contains itself and nothing else. */
  lemma AddressContainsIff(net: seq<nat>, ip: seq<nat>)
    requires IsAddress(net) && IsAddress(ip)
    ensures Contains(Spelled(net), Spelled(ip)) <==> net == ip
  {
    var s := Spelled(net);
    SpelledIsTight(net);
    SpelledTrimmed(net);
    SpelledTrimmed(ip);
    SpelledIsRead(net);
    SpelledIsRead(ip);
    BareRead(s, AddressValue(net));
    HostNetwork(s, Spelled(ip), AddressValue(net));
    SameAddressIff(s, Spelled(ip));
  }

  lemma BareRead(s: string, v: nat)
    requires s != "" && '/' !in s && Trim(s) == s && Ipv4ToInt(s) == Some(v)
    ensures ParseCidr(s) == Some((v, 32))
  {
    IndexOfNone(s, '/');
    assert s[..|s|] == s;
  }
}
