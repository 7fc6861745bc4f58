/** Server endpoints: parsing "addr:port", printing, and conversion from the
    protobuf endpoint (src/model/route.rs). */
module Route {
  import opened Ints
  import opened Common

  datatype Endpoint = Endpoint(addr: string, port: u32)

  /** The protobuf endpoint of a route response. */
  datatype EndpointPb = EndpointPb(ip: string, port: u32)

  predicate IsDigit(c: char) {
    '0' <= c <= '9'
  }

  predicate AllDigits(s: string) {
    forall k :: 0 <= k < |s| ==> IsDigit(s[k])
  }

  function DigitChar(d: nat): (c: char)
    requires d < 10
    ensures IsDigit(c) && (c as int) - ('0' as int) == d
  {
    (('0' as int) + d) as char
  }

  /** The decimal rendering of a number, as `Display` for integers prints it. */
  function Decimal(n: nat): (s: string)
    ensures s != [] && AllDigits(s)
    decreases n
  {
    if n < 10 then [DigitChar(n)] else Decimal(n / 10) + [DigitChar(n % 10)]
  }

  /** The value of a string of decimal digits (leading zeros allowed). */
  function DecimalValue(s: string): nat
    requires AllDigits(s)
    decreases |s|
  {
    if s == [] then 0
    else DecimalValue(s[..|s| - 1]) * 10 + ((s[|s| - 1] as int) - ('0' as int))
  }

  lemma {:induction false} DecimalValueOfDecimal(n: nat)
    ensures DecimalValue(Decimal(n)) == n
    decreases n
  {
    if n >= 10 {
      var s := Decimal(n);
      assert s[..|s| - 1] == Decimal(n / 10);
      DecimalValueOfDecimal(n / 10);
    }
  }

  /** Rust's `u32::from_str`: an optional leading '+', then one or more
      decimal digits whose value fits in 32 bits. */
  function ParseU32(s: string): (r: Option<u32>)
    ensures r.Some? ==> s != [] && s != "+"
    ensures r.Some? <==> var d := if s != [] && s[0] == '+' then s[1..] else s;
      d != [] && AllDigits(d) && DecimalValue(d) < 0x1_0000_0000
  {
    var digits := if s != [] && s[0] == '+' then s[1..] else s;
    if digits == [] || !AllDigits(digits) then None
    else
      var v := DecimalValue(digits);
      if v < 0x1_0000_0000 then Some(v) else None
  }

  /** The position of the last occurrence of `c` in `s`. */
  function LastIndexOf(s: string, c: char): (r: Option<nat>)
    ensures r.None? <==> c !in s
    ensures r.Some? ==> r.value < |s| && s[r.value] == c && c !in s[r.value + 1..]
    decreases |s|
  {
    if s == [] then None
    else if s[|s| - 1] == c then Some(|s| - 1)
    else
      var r := LastIndexOf(s[..|s| - 1], c);
      assert s == s[..|s| - 1] + [s[|s| - 1]];
      if r.Some? then assert s[r.value + 1..] == s[..|s| - 1][r.value + 1..] + [s[|s| - 1]]; r
      else r
  }

  /** Rust's `str::rsplit_once`: split around the last occurrence of `c`. */
  function RSplitOnce(s: string, c: char): (r: Option<(string, string)>)
    ensures r.None? <==> c !in s
    ensures r.Some? ==> s == r.value.0 + [c] + r.value.1 && c !in r.value.1
  {
    match LastIndexOf(s, c)
    case None => None
    case Some(i) =>
      assert s == s[..i] + [c] + s[i + 1..];
      Some((s[..i], s[i + 1..]))
  }

  /** `Endpoint::from_str`. */
  function Parse(s: string): (r: StrResult<Endpoint>)
    ensures ':' !in s ==> r.Failure?
    ensures r.Success? ==>
      && r.value.addr != []
      && r.value.port <= U16_MAX
      && exists rawPort :: s == r.value.addr + ":" + rawPort && ':' !in rawPort && ParseU32(rawPort) == Some(r.value.port)
  {
    match RSplitOnce(s, ':')
    case None => Failure("Can't find ':' in the source string")
    case Some((addr, rawPort)) =>
      if addr == [] then Failure("Empty addr in the source string")
      else match ParseU32(rawPort)
        case None => Failure("Fail to parse port")
        case Some(port) =>
          if port > U16_MAX then Failure("Too large port (<=65536)")
          else Success(Endpoint(addr, port))
  }

  /** `Display for Endpoint`: "addr:port". */
  function ToString(e: Endpoint): string {
    e.addr + ":" + Decimal(e.port)
  }

  /** `From<EndPointPb> for Endpoint`: copies ip and port, with no range check. */
  function FromPb(pb: EndpointPb): (e: Endpoint)
    ensures ToString(e) == pb.ip + ":" + Decimal(pb.port)
  {
    Endpoint(pb.ip, pb.port)
  }

  lemma ParseU32OfDecimal(n: u32)
    ensures ParseU32(Decimal(n)) == Some(n)
  {
    DecimalValueOfDecimal(n);
  }

  /** The last occurrence of `c` is the one with no `c` after it. */
  lemma LastIndexOfUnique(s: string, c: char, j: nat)
    requires j < |s| && s[j] == c && c !in s[j + 1..]
    ensures LastIndexOf(s, c) == Some(j)
  {
    assert s[j] in s;
    var i := LastIndexOf(s, c).value;
    forall k | i < k < |s| ensures s[k] != c {
      assert s[k] == s[i + 1..][k - i - 1];
    }
    forall k | j < k < |s| ensures s[k] != c {
      assert s[k] == s[j + 1..][k - j - 1];
    }
  }

  /** Splitting "a:b" where `b` has no ':' gives back `a` and `b`. */
  lemma RSplitOnceAt(a: string, b: string)
    requires ':' !in b
    ensures RSplitOnce(a + ":" + b, ':') == Some((a, b))
  {
    var s := a + ":" + b;
    assert s[|a|] == ':';
    assert s[|a| + 1..] == b;
    LastIndexOfUnique(s, ':', |a|);
    assert s[..|a|] == a;
  }

  lemma NoColonInDecimal(n: nat)
    ensures ':' !in Decimal(n)
  {
    var d := Decimal(n);
    forall k | 0 <= k < |d| ensures d[k] != ':' {
      assert IsDigit(d[k]);
    }
  }

  /** Printing then parsing gives back the endpoint whenever the address is
      non-empty and the port fits in 16 bits; otherwise parsing fails. */
  lemma ParseToString(e: Endpoint)
    ensures Parse(ToString(e)).Success? <==> e.addr != [] && e.port <= U16_MAX
    ensures Parse(ToString(e)).Success? ==> Parse(ToString(e)) == Success(e)
  {
    NoColonInDecimal(e.port);
    RSplitOnceAt(e.addr, Decimal(e.port));
    ParseU32OfDecimal(e.port);
  }

  /** The protobuf conversion accepts ports the parser rejects. */
  lemma FromPbSkipsRangeCheck()
    ensures var e := FromPb(EndpointPb("h", 70000));
      e.port == 70000 && Parse(ToString(e)).Failure?
  {
    ParseToString(Endpoint("h", 70000));
  }

  /** Parsing a string that is known to be a printed endpoint. */
  lemma ParsePrinted(addr: string, port: u32, s: string)
    requires s == addr + ":" + Decimal(port)
    ensures Parse(s).Success? <==> addr != [] && port <= U16_MAX
    ensures Parse(s).Success? ==> Parse(s) == Success(Endpoint(addr, port))
  {
    ParseToString(Endpoint(addr, port));
  }

  /** The successful parses of the crate's own test, one per lemma (the
      solver handles string literals best in isolation). */
  lemma ParseLoopback()
    ensures Parse("127.0.0.1:80") == Success(Endpoint("127.0.0.1", 80))
  {
    assert Decimal(80) == "80";
    ParsePrinted("127.0.0.1", 80, "127.0.0.1:80");
  }

  lemma ParseHostName()
    ensures Parse("hello.world.com:1080") == Success(Endpoint("hello.world.com", 1080))
  {
    assert Decimal(1080) == "1080";
    ParsePrinted("hello.world.com", 1080, "hello.world.com:1080");
  }

  /** The failing parses of the crate's own test: no ':', an empty address,
      an empty string, and a port above 65535. */
  lemma ParseNoColon()
    ensures Parse("127.0.0.1").Failure? && Parse("").Failure?
  {
    var s := "127.0.0.1";
    forall k | 0 <= k < |s| ensures s[k] != ':' {
    }
    assert ':' !in s;
  }

  lemma ParseEmptyAddr()
    ensures Parse(":1080").Failure?
  {
    assert Decimal(1080) == "1080";
    ParsePrinted("", 1080, ":1080");
  }

  lemma ParsePortTooLarge()
    ensures Parse("0:99999999").Failure?
  {
    assert Decimal(9) == "9";
    assert Decimal(99) == "99";
    assert Decimal(999) == "999";
    assert Decimal(9999) == "9999";
    assert Decimal(99999) == "99999";
    assert Decimal(999999) == "999999";
    assert Decimal(9999999) == "9999999";
    assert Decimal(99999999) == "99999999";
    ParsePrinted("0", 99999999, "0:99999999");
  }

  /** 65535 is the largest port accepted. */
  lemma ParseMaxPort()
    ensures Parse("h:65535") == Success(Endpoint("h", 65535))
  {
    assert Decimal(6) == "6";
    assert Decimal(65) == "65";
    assert Decimal(655) == "655";
    assert Decimal(6553) == "6553";
    assert Decimal(65535) == "65535";
    ParsePrinted("h", 65535, "h:65535");
  }

  lemma ParsePortAboveMax()
    ensures Parse("h:65536").Failure?
  {
    assert Decimal(6) == "6";
    assert Decimal(65) == "65";
    assert Decimal(655) == "655";
    assert Decimal(6553) == "6553";
    assert Decimal(65536) == "65536";
    ParsePrinted("h", 65536, "h:65536");
  }

  /** The address may itself contain ':'; the split is at the last one. */
  lemma ParseSplitsAtLastColon()
    ensures Parse("::1:8831") == Success(Endpoint("::1", 8831))
  {
    assert Decimal(8831) == "8831";
    ParsePrinted("::1", 8831, "::1:8831");
  }

  /** An empty port, a lone '+', or a port with a non-digit anywhere (other
      than one leading '+') is not a number. */
  lemma ParseU32Rejects(rawPort: string)
    requires rawPort == [] || rawPort == "+" ||
      exists k :: 0 <= k < |rawPort| && !IsDigit(rawPort[k]) && (k > 0 || rawPort[0] != '+')
    ensures ParseU32(rawPort).None?
  {
    if rawPort != [] && rawPort != "+" {
      var k :| 0 <= k < |rawPort| && !IsDigit(rawPort[k]) && (k > 0 || rawPort[0] != '+');
      var d := if rawPort[0] == '+' then rawPort[1..] else rawPort;
      assert !IsDigit(d[if rawPort[0] == '+' then k - 1 else k]);
    }
  }

  /** ... so an endpoint with such a port fails to parse. */
  lemma ParseRejectsBadPort(addr: string, rawPort: string)
    requires addr != [] && ':' !in rawPort
    requires rawPort == [] || rawPort == "+" ||
      exists k :: 0 <= k < |rawPort| && !IsDigit(rawPort[k]) && (k > 0 || rawPort[0] != '+')
    ensures Parse(addr + ":" + rawPort).Failure?
  {
    RSplitOnceAt(addr, rawPort);
    ParseU32Rejects(rawPort);
  }
}
