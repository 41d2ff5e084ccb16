/** Endpoint resolution (networkzero/core.py, `address`, `find_valid_ip4`'s
    cache and the global `PORT_POOL`): an optional IP, an optional port or
    both become an "ip:port" text, the port validated or drawn from the pool
    of dynamic ports, the IP taken as given, from the cache, or discovered. */
module Core {
  import opened Types
  import opened Strings
  import opened AddressParser
  import opened Interfaces

  /** What a caller may pass as `address`: nothing, an integer, or a text. */
  datatype Input = Absent | Number(n: int) | Text(s: string)

  /** `str(address or "").strip()`: a falsy input (nothing, 0, "") becomes
      the empty text, anything else its `str`, without surrounding whitespace. */
  function NormalizeInput(input: Input): (r: string)
    ensures IsTrimmed(r)
    ensures input.Absent? || input == Number(0) ==> r == ""
  {
    match input
    case Absent => ""
    case Number(n) => if n == 0 then "" else Strip(IntToString(n))
    case Text(s) => Strip(s)
  }

  /** An integer input: 0 means no input at all, a positive one is a bare
      port, and a negative one has a sign that `isdigit` rejects, so it is
      taken for an IP. */
  lemma NumberInputSplit(n: int)
    ensures n == 0 ==> SplitAddress(NormalizeInput(Number(n))) == ("", "")
    ensures n > 0 ==> SplitAddress(NormalizeInput(Number(n))) == ("", IntToString(n))
    ensures n < 0 ==> SplitAddress(NormalizeInput(Number(n))) == (IntToString(n), "")
  {
    if n != 0 {
      var s := IntToString(n);
      IntToStringTrimmed(n);
      assert NormalizeInput(Number(n)) == s;
      var digits := NatToString(if n < 0 then -n else n);
      if n < 0 {
        assert s == "-" + digits;
        assert !IsDecimal(s) by { assert !IsDigit(s[0]); }
      } else {
        assert s == digits;
      }
      assert ':' !in s;
    }
  }

  /** A text input is stripped before it is split: padding around an
      "ip:port" text does not change the parts. */
  lemma PaddedTextSplit(before: string, ip: string, port: string, after: string)
    requires AllSpace(before) && AllSpace(after) && IsTrimmed(ip + ":" + port)
    requires ':' !in ip
    ensures SplitAddress(NormalizeInput(Text(before + (ip + ":" + port) + after))) == (ip, port)
  {
    StripPadded(before, ip + ":" + port, after);
    SplitOfJoined(ip, port);
  }

  /** The port part of the input, when there is one: `int(port)` in
      `VALID_PORTS`, or the `InvalidAddressError` saying which check failed.
      Building the out-of-range message takes `min` and `max` of `VALID_PORTS`,
      which raise ValueError instead when the range is empty. */
  function ExplicitPort(port: string, validPorts: PortRange): (r: Result<int>)
    ensures r.Ok? <==> IsValidPort(port, validPorts)
    ensures r.Ok? ==> ParseInt(port) == Some(r.value)
    ensures ParseInt(port).None? ==> r == Err(InvalidAddressError(PortNotNumber(port)))
    ensures ParseInt(port).Some? && !validPorts.Contains(ParseInt(port).value) ==>
      r == if validPorts.IsEmpty() then Err(ValueError)
           else Err(InvalidAddressError(PortOutOfRange(ParseInt(port).value)))
  {
    match ParseInt(port)
    case None => Err(InvalidAddressError(PortNotNumber(port)))
    case Some(n) =>
      if validPorts.Contains(n) then Ok(n)
      else if validPorts.IsEmpty() then Err(ValueError)
      else Err(InvalidAddressError(PortOutOfRange(n)))
  }

  /** The decimal text of a number is accepted as a port exactly when the
      number is in range, and then the number itself is the port; out of a
      non-empty range it is rejected as out of range, and against an empty
      range the message cannot be built. */
  lemma ExplicitPortOfNumber(n: int, validPorts: PortRange)
    ensures ExplicitPort(IntToString(n), validPorts) ==
      if validPorts.Contains(n) then Ok(n)
      else if validPorts.IsEmpty() then Err(ValueError)
      else Err(InvalidAddressError(PortOutOfRange(n)))
  {
    IntToStringRoundTrip(n);
  }

  /** `"%s:%s" % (ip, port)` */
  function Endpoint(ip: string, port: int): string {
    ip + ":" + IntToString(port)
  }

  /** An endpoint splits back into its IP and the text of its port, and the
      port text parses back to the port. */
  lemma EndpointRoundTrip(ip: string, port: int)
    requires ':' !in ip
    ensures SplitAddress(Endpoint(ip, port)) == (ip, IntToString(port))
    ensures ParseInt(SplitAddress(Endpoint(ip, port)).1) == Some(port)
  {
    SplitOfJoined(ip, IntToString(port));
    IntToStringRoundTrip(port);
  }

  /** Two endpoints on the same IP are the same text only for the same port. */
  lemma EndpointInjective(ip: string, p: int, q: int)
    requires ':' !in ip
    requires Endpoint(ip, p) == Endpoint(ip, q)
    ensures p == q
  {
    EndpointRoundTrip(ip, p);
    EndpointRoundTrip(ip, q);
    IntToStringInjective(p, q);
  }

  /** Where the IP of the endpoint comes from: the IP given, else the cached
      one when it is set (and non-empty, as `if _ip4` requires), else a fresh
      discovery. */
  function ResolveIp(ip: string, cached: Option<string>, hostAddresses: seq<Ip4>,
                     prefer: Option<seq<string>>): (r: Result<string>)
    ensures ip != "" ==> r == Ok(ip)
    ensures ip == "" && cached.Some? && cached.value != "" ==> r == Ok(cached.value)
    ensures ip == "" && (cached.None? || cached.value == "") ==> r == Discover(hostAddresses, prefer)
  {
    if ip != "" then Ok(ip)
    else if cached.Some? && cached.value != "" then Ok(cached.value)
    else Discover(hostAddresses, prefer)
  }

  /** The cache after the IP has been filled in: only a discovery that
      succeeds stores its result. */
  function CacheAfter(ip: string, cached: Option<string>, hostAddresses: seq<Ip4>,
                      prefer: Option<seq<string>>): (r: Option<string>)
    ensures r != cached ==>
      ip == "" && Discover(hostAddresses, prefer).Ok? && r == Some(Discover(hostAddresses, prefer).value)
    ensures ip == "" && !(cached.Some? && cached.value != "") && Discover(hostAddresses, prefer).Ok? ==>
      r == Some(Discover(hostAddresses, prefer).value)
  {
    if ip == "" && !(cached.Some? && cached.value != "") && Discover(hostAddresses, prefer).Ok? then
      Some(Discover(hostAddresses, prefer).value)
    else cached
  }

  /** The endpoint made of a resolved IP and a port, or the resolution's error. */
  function Formatted(ip: Result<string>, port: int): Result<string> {
    match ip
    case Ok(text) => Ok(Endpoint(text, port))
    case Err(e) => Err(e)
  }

  /** A cached IP, once set, answers every later request without an IP: the
      host's addresses and the preference no longer matter. */
  lemma CachedIpIsReused(cached: string, hosts1: seq<Ip4>, prefer1: Option<seq<string>>,
                         hosts2: seq<Ip4>, prefer2: Option<seq<string>>)
    requires cached != ""
    ensures ResolveIp("", Some(cached), hosts1, prefer1) == ResolveIp("", Some(cached), hosts2, prefer2) == Ok(cached)
    ensures CacheAfter("", Some(cached), hosts1, prefer1) == Some(cached)
  {
  }

  /** An IP that is discovered, or read from a cache that only discovery
      fills, passes `is_valid_ip` and makes, with any port in range, a valid
      address. A given IP is passed on as it is, valid or not. */
  lemma ResolvedEndpointIsValid(cached: Option<string>, hostAddresses: seq<Ip4>,
                                prefer: Option<seq<string>>, port: int)
    requires cached.Some? ==> IsValidIp(cached.value) && ':' !in cached.value
    requires 0 <= port < 65536
    ensures ResolveIp("", cached, hostAddresses, prefer).Ok? ==>
      IsValidAddress(Endpoint(ResolveIp("", cached, hostAddresses, prefer).value, port), AllPorts)
  {
    var r := ResolveIp("", cached, hostAddresses, prefer);
    if r.Ok? {
      if !(cached.Some? && cached.value != "") {
        DiscoveredIpIsPreferred(hostAddresses, prefer);
      }
      ValidAddressOfEndpoint(r.value, port, AllPorts);
    }
  }

  /** A supplied IP is not checked: text that `is_valid_ip` rejects still
      comes back as the IP of the endpoint. */
  lemma SuppliedIpIsNotValidated(hostAddresses: seq<Ip4>, prefer: Option<seq<string>>)
    ensures !IsValidIp("localhost")
    ensures ResolveIp("localhost", None, hostAddresses, prefer) == Ok("localhost")
  {
    assert Split("localhost", '.') == ["localhost"];
    assert "localhost"[8] != '\n';
  }

  /** Every port of the range is either still in the pool or has been handed
      out, and none is in both or twice. */
  ghost predicate PortsAccounted(pool: seq<int>, drawn: seq<int>, ports: PortRange) {
    multiset(pool) + multiset(drawn) == multiset(ports.Elements())
  }

  /** A cached IP is one that discovery produced, so it passes `is_valid_ip`
      and holds no colon. */
  ghost predicate CacheSound(cachedIp: Option<string>) {
    cachedIp.Some? ==> IsValidIp(cachedIp.value) && ':' !in cachedIp.value
  }

  /** The text of a host address may be cached. */
  lemma HostTextIsSound(ip4: Ip4)
    ensures CacheSound(Some(ip4.Text()))
  {
    TextIsValidIp(ip4);
  }

  /** The process-wide state of the core: the pool of dynamic ports not yet
      handed out (`PORT_POOL`) and the cached local IP (`_ip4`), together with
      the configured port ranges. */
  class Resolver {
    var pool: seq<int>
    var cachedIp: Option<string>
    const validPorts: PortRange
    ghost const dynamicPorts: PortRange
    /** The ports handed out so far, oldest first. */
    ghost var drawn: seq<int>

    /** Every dynamic port is accounted for, and the cache is sound. */
    ghost predicate Valid()
      reads this
    {
      PortsAccounted(pool, drawn, dynamicPorts) && CacheSound(cachedIp)
    }

    /** `PORT_POOL = list(config.DYNAMIC_PORTS)` and `_ip4 = None`. */
    constructor(dynamic: PortRange, valid: PortRange)
      ensures Valid()
      ensures pool == dynamic.Elements() && cachedIp == None && drawn == []
      ensures validPorts == valid && dynamicPorts == dynamic
    {
      pool := dynamic.Elements();
      cachedIp := None;
      validPorts := valid;
      dynamicPorts := dynamic;
      drawn := [];
    }

    /** `random.shuffle(PORT_POOL)` then `PORT_POOL.pop()`: one port of the
        pool, whichever the shuffle put last, leaves it for good; `pop` on
        the empty pool raises `IndexError`. */
    method TakeDynamicPort() returns (r: Result<int>)
      requires Valid()
      modifies this
      ensures Valid()
      ensures cachedIp == old(cachedIp)
      ensures old(pool) == [] ==> r == Err(IndexError) && pool == [] && drawn == old(drawn)
      ensures old(pool) != [] ==>
        && r.Ok? && r.value in old(pool)
        && |pool| == |old(pool)| - 1
        && multiset(pool) == multiset(old(pool)) - multiset{r.value}
        && drawn == old(drawn) + [r.value]
    {
      var shuffled: seq<int> :| multiset(shuffled) == multiset(pool);
      if shuffled == [] {
        pool := shuffled;
        return Err(IndexError);
      }
      var last := shuffled[|shuffled| - 1];
      PopKeepsAccount(pool, drawn, shuffled, dynamicPorts);
      pool := shuffled[..|shuffled| - 1];
      drawn := drawn + [last];
      return Ok(last);
    }

    /** `find_valid_ip4`: the text of the host's preferred IPv4 address,
        which is stored in the cache; with no address, or when `sorter`
        fails, the cache keeps its value. The cache is not consulted here. */
    method FindValidIp4(hostAddresses: seq<Ip4>, prefer: Option<seq<string>>) returns (r: Result<string>)
      requires Valid()
      modifies this
      ensures Valid()
      ensures r == Discover(hostAddresses, prefer)
      ensures cachedIp == if r.Ok? then Some(r.value) else old(cachedIp)
      ensures pool == old(pool) && drawn == old(drawn)
    {
      var patterns := Preferences(prefer);
      if hostAddresses == [] {
        return Err(InvalidAddressError(NoAddressFound));
      }
      var best := SelectInterface(hostAddresses, patterns);
      if best.Err? {
        return Err(best.error);
      }
      var ip := hostAddresses[best.value].Text();
      HostTextIsSound(hostAddresses[best.value]);
      cachedIp := Some(ip);
      return Ok(ip);
    }

    /** `address(address, prefer)`: split the normalised input, validate the
        given port or draw one from the pool, fill in the IP, and format the
        endpoint. An invalid port fails before the pool or the cache is
        touched; a drawn port stays drawn even when the IP cannot be found. */
    method Address(input: Input, prefer: Option<seq<string>>, hostAddresses: seq<Ip4>) returns (r: Result<string>)
      requires Valid()
      modifies this
      ensures Valid()
      ensures
        var (ip, port) := SplitAddress(NormalizeInput(input));
        && (port != "" && ExplicitPort(port, validPorts).Err? ==>
              r == Err(ExplicitPort(port, validPorts).error)
              && pool == old(pool) && drawn == old(drawn) && cachedIp == old(cachedIp))
        && (port != "" && ExplicitPort(port, validPorts).Ok? ==>
              && r == Formatted(ResolveIp(ip, old(cachedIp), hostAddresses, prefer), ExplicitPort(port, validPorts).value)
              && pool == old(pool) && drawn == old(drawn)
              && cachedIp == CacheAfter(ip, old(cachedIp), hostAddresses, prefer))
        && (port == "" && old(pool) == [] ==>
              r == Err(IndexError) && pool == [] && drawn == old(drawn) && cachedIp == old(cachedIp))
        && (port == "" && old(pool) != [] ==>
              && |drawn| == |old(drawn)| + 1 && drawn[..|old(drawn)|] == old(drawn)
              && drawn[|old(drawn)|] in old(pool)
              && multiset(pool) == multiset(old(pool)) - multiset{drawn[|old(drawn)|]}
              && r == Formatted(ResolveIp(ip, old(cachedIp), hostAddresses, prefer), drawn[|old(drawn)|])
              && cachedIp == CacheAfter(ip, old(cachedIp), hostAddresses, prefer))
    {
      var text := NormalizeInput(input);
      var (ip, port) := SplitAddress(text);
      var number: int;
      if port != "" {
        var checked := ExplicitPort(port, validPorts);
        if checked.Err? {
          return Err(checked.error);
        }
        number := checked.value;
      } else {
        var taken := TakeDynamicPort();
        if taken.Err? {
          return Err(taken.error);
        }
        number := taken.value;
      }
      var resolved: Result<string>;
      if ip != "" {
        resolved := Ok(ip);
      } else if cachedIp.Some? && cachedIp.value != "" {
        resolved := Ok(cachedIp.value);
      } else {
        resolved := FindValidIp4(hostAddresses, prefer);
      }
      if resolved.Err? {
        return Err(resolved.error);
      }
      return Ok(Endpoint(resolved.value, number));
    }
  }

  /** Popping the last port of a shuffled pool onto the drawn ports keeps
      every port accounted for. */
  lemma PopKeepsAccount(pool: seq<int>, drawn: seq<int>, shuffled: seq<int>, ports: PortRange)
    requires multiset(shuffled) == multiset(pool) && shuffled != []
    requires PortsAccounted(pool, drawn, ports)
    ensures var last, rest := shuffled[|shuffled| - 1], shuffled[..|shuffled| - 1];
      && last in pool
      && |rest| == |pool| - 1
      && multiset(rest) == multiset(pool) - multiset{last}
      && PortsAccounted(rest, drawn + [last], ports)
  {
    var last, rest := shuffled[|shuffled| - 1], shuffled[..|shuffled| - 1];
    assert shuffled == rest + [last];
    assert last in multiset(pool);
    assert |multiset(shuffled)| == |multiset(pool)|;
  }

  /** No port is handed out twice, and every port handed out is a dynamic
      port. */
  lemma NoPortIssuedTwice(res: Resolver, i: nat, j: nat)
    requires res.Valid()
    requires i < j < |res.drawn|
    ensures res.drawn[i] != res.drawn[j]
    ensures res.dynamicPorts.Contains(res.drawn[i])
  {
    var d, p := res.drawn, res.drawn[i];
    assert multiset(d)[p] <= multiset(res.dynamicPorts.Elements())[p];
    assert p in multiset(d);
    assert d == d[..i] + [p] + d[i + 1..j] + [d[j]] + d[j + 1..];
    assert multiset(d)[p] >= multiset([p])[p] + multiset([d[j]])[p];
  }

  /** ":8080" names port 8080 and no IP, which a valid range that leaves
      out the ports below 1024 accepts. */
  lemma ColonPortExample()
    ensures SplitAddress(NormalizeInput(Text(":8080"))) == ("", "8080")
    ensures ExplicitPort("8080", PortRange(1024, 65536)) == Ok(8080)
  {
    StripTrimmed(":8080");
    assert ":8080" == "" + ":" + "8080";
    SplitOfJoined("", "8080");
    PortTextExamples();
  }

  /** Against an empty valid range, an out-of-range port raises ValueError
      from `min` instead of `InvalidAddressError`; a port padded with an
      information separator is not a number. */
  lemma PortErrorExamples()
    ensures ExplicitPort("80", PortRange(5, 5)) == Err(ValueError)
    ensures ExplicitPort([0x1C as char] + "80", AllPorts) ==
      Err(InvalidAddressError(PortNotNumber([0x1C as char] + "80")))
  {
    PortTextExamples();
    assert IsInfoSeparator(([0x1C as char] + "80")[0]);
  }

  /** "80" is a bare port, which that range rejects. */
  lemma LowPortExample()
    ensures SplitAddress(NormalizeInput(Text("80"))) == ("", "80")
    ensures ExplicitPort("80", PortRange(1024, 65536)) == Err(InvalidAddressError(PortOutOfRange(80)))
  {
    assert NormalizeInput(Text("80")) == "80" by {
      StripTrimmed("80");
    }
    assert SplitAddress("80") == ("", "80") by {
      assert "80"[0] != ':' && "80"[1] != ':';
    }
    PortTextExamples();
  }

  /** With no preference given and at least one host address, discovery
      succeeds, with a non-empty IP free of colons. */
  lemma DefaultDiscoverySucceeds(hostAddresses: seq<Ip4>)
    requires hostAddresses != []
    ensures Discover(hostAddresses, None).Ok?
    ensures Discover(hostAddresses, None).value != [] && ':' !in Discover(hostAddresses, None).value
  {
    DiscoveredIpIsPreferred(hostAddresses, None);
  }

  /** Two calls without any input in a row: both succeed while the pool holds
      two ports and the host has an address, they name the same IP (the
      second reads the cache the first filled, or the cache both read), and
      they name different ports. */
  method TwoBareResolutions(res: Resolver, hostAddresses: seq<Ip4>) returns (first: Result<string>, second: Result<string>)
    requires res.Valid() && |res.pool| >= 2 && hostAddresses != []
    modifies res
    ensures res.Valid()
    ensures first.Ok? && second.Ok?
    ensures SplitAddress(first.value).0 == SplitAddress(second.value).0
    ensures first.value != second.value
  {
    NumberInputSplit(0);
    DefaultDiscoverySucceeds(hostAddresses);
    ghost var before, cache0 := res.drawn, res.cachedIp;
    first := res.Address(Absent, None, hostAddresses);
    ghost var middle, cache1 := res.drawn, res.cachedIp;
    ghost var p := middle[|before|];
    ghost var ip := ResolveIp("", cache0, hostAddresses, None).value;
    assert first == Ok(Endpoint(ip, p));
    assert cache1.Some? && cache1.value == ip && ip != [] && ':' !in ip;
    second := res.Address(Absent, None, hostAddresses);
    ghost var q := res.drawn[|middle|];
    assert second == Ok(Endpoint(ip, q));
    assert res.drawn[|before|] == p by {
      assert res.drawn[..|middle|] == middle;
    }
    NoPortIssuedTwice(res, |before|, |middle|);
    EndpointRoundTrip(ip, p);
    EndpointRoundTrip(ip, q);
    if first.value == second.value {
      EndpointInjective(ip, p, q);
    }
  }
}
