/** Parsing and validation of raw address text (networkzero/core.py,
    `split_address`, `is_valid_ip`, `is_valid_port`, `is_valid_address`). */
module AddressParser {
  import opened Types
  import opened Strings

  /** `split_address`: an "ip:port" text is cut at its first colon; a text
      without a colon is a port when it is all digits and an IP otherwise.
      The IP part never holds a colon. */
  function SplitAddress(address: string): (r: (string, string))
    ensures ':' !in r.0
    ensures ':' in address ==> r.0 + ":" + r.1 == address
    ensures ':' !in address ==> (r.0 == "" && r.1 == address) || (r.0 == address && r.1 == "")
    ensures ':' !in address ==> (r.1 != "" <==> IsDecimal(address))
  {
    if ':' in address then Partition(address, ':')
    else if IsDecimal(address) then ("", address)
    else (address, "")
  }

  /** Splitting an "ip:port" text whose IP part has no colon gives back the
      two parts. */
  lemma SplitOfJoined(ip: string, port: string)
    requires ':' !in ip
    ensures SplitAddress(ip + ":" + port) == (ip, port)
  {
    PartitionOfJoin(ip, ':', port);
    assert ip + ":" + port == ip + [':'] + port;
    assert ':' in ip + ":" + port;
  }

  /** Four dot-separated groups of at most three digits each. */
  predicate IsDottedQuad(s: string) {
    var groups := Split(s, '.');
    |groups| == 4 && forall i :: 0 <= i < 4 ==> |groups[i]| <= 3 && AllDigits(groups[i])
  }

  /** `is_valid_ip`: `re.match` of `^\d{,3}\.\d{,3}\.\d{,3}\.\d{,3}$`. The check
      is syntactic only (no 0..255 bound), and `$` also matches just before a
      final newline. */
  predicate IsValidIp(ip: string) {
    || IsDottedQuad(ip)
    || (|ip| > 0 && ip[|ip| - 1] == '\n' && IsDottedQuad(ip[..|ip| - 1]))
  }

  predicate IsShortNumber(g: string) {
    |g| <= 3 && AllDigits(g)
  }

  /** The regular expression's reading of a dotted quad: a text is one exactly
      when it is four short digit groups joined by dots. */
  lemma DottedQuadIff(s: string)
    ensures IsDottedQuad(s) <==>
      exists groups: seq<string> ::
        && |groups| == 4
        && (forall i :: 0 <= i < 4 ==> IsShortNumber(groups[i]))
        && Join(groups, '.') == s
  {
    if IsDottedQuad(s) {
      var groups := Split(s, '.');
      assert forall i :: 0 <= i < 4 ==> IsShortNumber(groups[i]);
    }
    if exists groups: seq<string> ::
        && |groups| == 4
        && (forall i :: 0 <= i < 4 ==> IsShortNumber(groups[i]))
        && Join(groups, '.') == s
    {
      var groups: seq<string> :|
        && |groups| == 4
        && (forall i :: 0 <= i < 4 ==> IsShortNumber(groups[i]))
        && Join(groups, '.') == s;
      forall i | 0 <= i < 4 ensures '.' !in groups[i] {
        ShortNumberHasNoSeparator(groups[i]);
      }
      SplitOfJoin(groups, '.');
    }
  }

  /** Digit groups hold neither of the separators of an address. */
  lemma ShortNumberHasNoSeparator(g: string)
    requires IsShortNumber(g)
    ensures '.' !in g && ':' !in g
  {
  }

  lemma JoinFour(g0: string, g1: string, g2: string, g3: string)
    ensures Join([g0, g1, g2, g3], '.') == g0 + "." + g1 + "." + g2 + "." + g3
  {
    var groups := [g0, g1, g2, g3];
    assert groups[1..] == [g1, g2, g3] && groups[1..][1..] == [g2, g3] && groups[1..][1..][1..] == [g3];
    assert Join([g2, g3], '.') == g2 + "." + g3;
    assert Join([g1, g2, g3], '.') == g1 + "." + (g2 + "." + g3);
    assert Join(groups, '.') == g0 + "." + (g1 + "." + (g2 + "." + g3));
  }

  /** Any four groups of at most three digits form a valid IP, in range or not. */
  lemma ValidIpOfGroups(g0: string, g1: string, g2: string, g3: string)
    requires IsShortNumber(g0) && IsShortNumber(g1) && IsShortNumber(g2) && IsShortNumber(g3)
    ensures IsValidIp(g0 + "." + g1 + "." + g2 + "." + g3)
  {
    var groups := [g0, g1, g2, g3];
    JoinFour(g0, g1, g2, g3);
    forall i | 0 <= i < 4 ensures '.' !in groups[i] {
      ShortNumberHasNoSeparator(groups[i]);
    }
    SplitOfJoin(groups, '.');
  }

  /** A private address passes `is_valid_ip`. */
  lemma PrivateIpExample()
    ensures IsValidIp("192.168.1.1")
  {
    assert "192" + "." + "168" + "." + "1" + "." + "1" == "192.168.1.1";
    ValidIpOfGroups("192", "168", "1", "1");
  }

  /** The check is syntactic: groups above 255 pass too. */
  lemma OutOfRangeIpExample()
    ensures IsValidIp("999.999.999.999")
  {
    assert "999" + "." + "999" + "." + "999" + "." + "999" == "999.999.999.999";
    ValidIpOfGroups("999", "999", "999", "999");
  }

  /** `\d{,3}` allows empty groups, so three dots alone pass. */
  lemma EmptyGroupsIpExample()
    ensures IsValidIp("...")
  {
    ValidIpOfGroups("", "", "", "");
    assert "" + "." + "" + "." + "" + "." + "" == "...";
  }

  /** `$` matches before a final newline, so one trailing newline passes. */
  lemma TrailingNewlineExample()
    ensures IsValidIp("1.2.3.4\n")
  {
    ValidIpOfGroups("1", "2", "3", "4");
    assert "1" + "." + "2" + "." + "3" + "." + "4" == "1.2.3.4";
    assert "1.2.3.4\n"[..7] == "1.2.3.4";
  }

  /** Three groups are too few to pass. */
  lemma ThreeGroupsIpExample()
    ensures !IsValidIp("1.2.3")
  {
    var three := ["1", "2", "3"];
    assert three[1..] == ["2", "3"] && three[1..][1..] == ["3"];
    assert Join(three, '.') == "1.2.3";
    SplitOfJoin(three, '.');
  }

  /** Four digits are too many for a group. */
  lemma LongGroupIpExample()
    ensures !IsValidIp("1234.1.1.1")
  {
    var long := ["1234", "1", "1", "1"];
    assert long[1..] == ["1", "1", "1"] && long[1..][1..] == ["1", "1"] && long[1..][1..][1..] == ["1"];
    assert Join(long, '.') == "1234.1.1.1";
    SplitOfJoin(long, '.');
    assert !IsShortNumber(Split("1234.1.1.1", '.')[0]);
  }

  /** The empty text does not pass. */
  lemma EmptyIsNotValidIp()
    ensures !IsValidIp("")
  {
    assert Split("", '.') == [""];
  }

  /** `is_valid_port`: `int(port)` lies in `portRange`; text that `int`
      rejects is simply invalid. */
  predicate IsValidPort(port: string, portRange: PortRange) {
    match ParseInt(port)
    case None => false
    case Some(n) => portRange.Contains(n)
  }

  /** The decimal text of a number is a valid port exactly when the number is
      in the range. */
  lemma ValidPortOfNumber(n: int, portRange: PortRange)
    ensures IsValidPort(IntToString(n), portRange) <==> portRange.Contains(n)
  {
    IntToStringRoundTrip(n);
  }

  /** A number in the range is a valid port, and one past 65535 is not. */
  lemma NumericPortExamples()
    ensures IsValidPort("80", AllPorts)
    ensures !IsValidPort("70000", AllPorts)
  {
    PortTextExamples();
  }

  /** Text that `int` rejects is an invalid port, not an error. */
  lemma NonNumericPortExamples()
    ensures !IsValidPort("abc", AllPorts)
    ensures !IsValidPort("", AllPorts)
  {
    StripTrimmed("abc");
    assert !IsDigit("abc"[1]);
    StripTrimmed("");
  }

  /** An information separator before the digits is whitespace to `strip`
      but not to `int`, so the port is invalid. */
  lemma InfoSeparatorPortExample()
    ensures Strip([0x1C as char] + "80") == "80"
    ensures !IsValidPort([0x1C as char] + "80", AllPorts)
  {
    var s := [0x1C as char] + "80";
    assert IsInfoSeparator(s[0]);
    assert s[1..] == "80";
    StripTrimmed("80");
  }

  /** `is_valid_address`: both halves of the split are valid. */
  predicate IsValidAddress(address: string, portRange: PortRange) {
    var (ip, port) := SplitAddress(address);
    IsValidIp(ip) && IsValidPort(port, portRange)
  }

  /** An "ip:port" text made from an IP without a colon and a number is a
      valid address exactly when the IP passes `is_valid_ip` and the number is
      in range. */
  lemma ValidAddressOfEndpoint(ip: string, n: int, portRange: PortRange)
    requires ':' !in ip
    ensures IsValidAddress(ip + ":" + IntToString(n), portRange) <==> IsValidIp(ip) && portRange.Contains(n)
  {
    SplitOfJoined(ip, IntToString(n));
    ValidPortOfNumber(n, portRange);
  }

  /** A text without a colon is never a valid address: one of its halves is
      empty, and neither check accepts the empty text. */
  lemma BareTextIsNotValidAddress(address: string, portRange: PortRange)
    requires ':' !in address
    ensures !IsValidAddress(address, portRange)
  {
    EmptyIsNotValidIp();
    NonNumericPortExamples();
  }
}
