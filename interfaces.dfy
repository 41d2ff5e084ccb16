/** Ranking of the host's IPv4 addresses (networkzero/core.py,
    `find_valid_ip4` and its inner `sorter`): every candidate gets the key
    (index of the first preference pattern it matches, its four octets), and
    the candidate with the least key, the first one among equals, wins. */
module Interfaces {
  import opened Types
  import opened Strings
  import opened Glob
  import opened AddressParser

  type Octet = n: int | 0 <= n < 256

  /** An IPv4 address as the host's interface query reports it. */
  datatype Ip4 = Ip4(a: Octet, b: Octet, c: Octet, d: Octet) {

    function Octets(): seq<int> {
      [a, b, c, d]
    }

    /** Dotted-decimal text, the form `socket.getaddrinfo` reports. */
    function Text(): string {
      NatToString(a) + "." + NatToString(b) + "." + NatToString(c) + "." + NatToString(d)
    }
  }

  /** The preference list used when the caller gives none. */
  const DefaultPreference: seq<string> := [DefaultPrefix + "*"]

  /** The literal part of the default pattern `192.168.*`. */
  const DefaultPrefix: string := "192.168."

  /** `prefer`, or the default list in its place when it is `None`. */
  function Preferences(prefer: Option<seq<string>>): seq<string> {
    match prefer
    case None => DefaultPreference
    case Some(patterns) => patterns
  }

  /** The key `sorter` returns: a preference rank, then the octets. */
  datatype Key = Key(rank: nat, octets: seq<int>)

  /** Python's `<` on lists of integers: the first difference decides, and a
      proper prefix comes first. */
  predicate SeqLess(x: seq<int>, y: seq<int>)
    decreases |x|
  {
    if x == [] then y != []
    else y != [] && (x[0] < y[0] || (x[0] == y[0] && SeqLess(x[1..], y[1..])))
  }

  /** Python's `<` on `(rank, octets)` tuples. */
  predicate KeyLess(k: Key, l: Key) {
    k.rank < l.rank || (k.rank == l.rank && SeqLess(k.octets, l.octets))
  }

  lemma {:induction false} SeqLessIrreflexive(x: seq<int>)
    ensures !SeqLess(x, x)
  {
    if x != [] {
      SeqLessIrreflexive(x[1..]);
    }
  }

  lemma {:induction false} SeqLessTransitive(x: seq<int>, y: seq<int>, z: seq<int>)
    requires SeqLess(x, y) && SeqLess(y, z)
    ensures SeqLess(x, z)
    decreases |x|
  {
    if x != [] && x[0] == y[0] && y[0] == z[0] {
      SeqLessTransitive(x[1..], y[1..], z[1..]);
    }
  }

  lemma {:induction false} SeqLessTotal(x: seq<int>, y: seq<int>)
    ensures x == y || SeqLess(x, y) || SeqLess(y, x)
    decreases |x|
  {
    if x != [] && y != [] && x[0] == y[0] {
      SeqLessTotal(x[1..], y[1..]);
      if x[1..] == y[1..] {
        assert x == [x[0]] + x[1..] && y == [y[0]] + y[1..];
      }
    }
  }

  /** The tuple order is a strict total order: irreflexive, transitive, and
      any two different keys are comparable. */
  lemma KeyLessIsStrictTotalOrder(k: Key, l: Key, m: Key)
    ensures !KeyLess(k, k)
    ensures KeyLess(k, l) && KeyLess(l, m) ==> KeyLess(k, m)
    ensures k == l || KeyLess(k, l) || KeyLess(l, k)
  {
    SeqLessIrreflexive(k.octets);
    if KeyLess(k, l) && KeyLess(l, m) && k.rank == l.rank == m.rank {
      SeqLessTransitive(k.octets, l.octets, m.octets);
    }
    SeqLessTotal(k.octets, l.octets);
  }

  /** Index of the first pattern that `text` matches, or the number of
      patterns when none does. */
  function PreferenceRank(text: string, patterns: seq<string>): (r: nat)
    ensures r <= |patterns|
    ensures r < |patterns| ==> FnMatch(text, patterns[r])
    ensures forall j :: 0 <= j < r ==> !FnMatch(text, patterns[j])
  {
    if patterns == [] then 0
    else if FnMatch(text, patterns[0]) then 0
    else 1 + PreferenceRank(text, patterns[1..])
  }

  /** The rank is determined by where the first match is: a position with no
      match before it, holding a match or standing past the last pattern. */
  lemma RankAt(text: string, patterns: seq<string>, i: nat)
    requires i <= |patterns|
    requires forall j :: 0 <= j < i ==> !FnMatch(text, patterns[j])
    requires i < |patterns| ==> FnMatch(text, patterns[i])
    ensures PreferenceRank(text, patterns) == i
  {
  }

  function RankKey(ip4: Ip4, patterns: seq<string>): Key {
    Key(PreferenceRank(ip4.Text(), patterns), ip4.Octets())
  }

  /** `[sorter(a) for a in addresses]`, when `sorter` does not fail. */
  function RankKeys(addresses: seq<Ip4>, patterns: seq<string>): (keys: seq<Key>)
    ensures |keys| == |addresses|
  {
    if addresses == [] then []
    else RankKeys(addresses[..|addresses| - 1], patterns) + [RankKey(addresses[|addresses| - 1], patterns)]
  }

  lemma {:induction false} RankKeysAt(addresses: seq<Ip4>, patterns: seq<string>, i: nat)
    requires i < |addresses|
    ensures RankKeys(addresses, patterns)[i] == RankKey(addresses[i], patterns)
  {
    var n := |addresses| - 1;
    if i < n {
      RankKeysAt(addresses[..n], patterns, i);
      assert addresses[..n][i] == addresses[i];
    }
  }

  /** `k` is where `min` stops: no key is below keys[k], and every key before
      position k is above it. */
  predicate IsFirstMinimum(keys: seq<Key>, k: nat) {
    && k < |keys|
    && (forall j :: 0 <= j < k ==> KeyLess(keys[k], keys[j]))
    && (forall j :: k <= j < |keys| ==> !KeyLess(keys[j], keys[k]))
  }

  /** The position `min` settles on, scanning from the left and replacing its
      pick only by a strictly smaller key. */
  function FirstMinIndex(keys: seq<Key>): (k: nat)
    requires keys != []
    ensures k < |keys|
  {
    if |keys| == 1 then 0
    else
      var k := FirstMinIndex(keys[..|keys| - 1]);
      if KeyLess(keys[|keys| - 1], keys[k]) then |keys| - 1 else k
  }

  lemma {:induction false} FirstMinIndexIsFirstMinimum(keys: seq<Key>)
    requires keys != []
    ensures IsFirstMinimum(keys, FirstMinIndex(keys))
  {
    if |keys| > 1 {
      var n := |keys| - 1;
      var init := keys[..n];
      var last := keys[n];
      var k := FirstMinIndex(init);
      FirstMinIndexIsFirstMinimum(init);
      assert forall j :: 0 <= j < n ==> keys[j] == init[j];
      KeyLessIsStrictTotalOrder(last, last, last);
      if KeyLess(last, keys[k]) {
        assert FirstMinIndex(keys) == n;
        forall j | 0 <= j < n
          ensures KeyLess(last, keys[j])
        {
          if j < k {
            KeyLessIsStrictTotalOrder(last, keys[k], keys[j]);
          } else {
            KeyLessIsStrictTotalOrder(keys[k], keys[j], keys[j]);
            KeyLessIsStrictTotalOrder(last, keys[k], keys[j]);
          }
        }
        assert IsFirstMinimum(keys, n);
      } else {
        assert FirstMinIndex(keys) == k;
        forall j | k <= j < |keys|
          ensures !KeyLess(keys[j], keys[k])
        {
          if j < n {
            assert keys[j] == init[j] && keys[k] == init[k];
          }
        }
        assert IsFirstMinimum(keys, k);
      }
    } else {
      KeyLessIsStrictTotalOrder(keys[0], keys[0], keys[0]);
    }
  }

  /** The first minimum is unique, so `min` has exactly one possible answer. */
  lemma FirstMinimumUnique(keys: seq<Key>, k: nat, l: nat)
    requires IsFirstMinimum(keys, k) && IsFirstMinimum(keys, l)
    ensures k == l
  {
    var atK, atL := keys[k], keys[l];
    if k < l {
      assert false;
    } else if l < k {
      assert false;
    }
  }

  /** A numeral of an octet has at most three digits. */
  lemma OctetNumeral(n: Octet)
    ensures IsShortNumber(NatToString(n)) && '.' !in NatToString(n) && ':' !in NatToString(n)
  {
    if n >= 10 {
      var t := NatToString(n / 10);
      if n / 10 >= 10 {
        assert |NatToString(n / 10 / 10)| == 1;
      }
      assert |t| <= 2;
    }
    ShortNumberHasNoSeparator(NatToString(n));
  }

  /** The text of an address passes `is_valid_ip`, and so holds no colon. */
  lemma TextIsValidIp(ip4: Ip4)
    ensures IsValidIp(ip4.Text())
    ensures ip4.Text() != [] && ':' !in ip4.Text()
  {
    OctetNumeral(ip4.a);
    OctetNumeral(ip4.b);
    OctetNumeral(ip4.c);
    OctetNumeral(ip4.d);
    ValidIpOfGroups(NatToString(ip4.a), NatToString(ip4.b), NatToString(ip4.c), NatToString(ip4.d));
  }

  function Numerals(ip4: Ip4): seq<string> {
    [NatToString(ip4.a), NatToString(ip4.b), NatToString(ip4.c), NatToString(ip4.d)]
  }

  /** The text is the four numerals joined by dots, and splits back into them. */
  lemma SplitText(ip4: Ip4)
    ensures Split(ip4.Text(), '.') == Numerals(ip4)
  {
    var parts := Numerals(ip4);
    JoinFour(parts[0], parts[1], parts[2], parts[3]);
    OctetNumeral(ip4.a);
    OctetNumeral(ip4.b);
    OctetNumeral(ip4.c);
    OctetNumeral(ip4.d);
    SplitOfJoin(parts, '.');
  }

  /** `[int(i) for i in ip4.split(".")]`, or `None` where `int` raises. */
  function ParseOctets(text: string): Option<seq<int>> {
    ParseAll(Split(text, '.'))
  }

  /** Parsing the octets of an address's text gives back its octets. */
  lemma OctetsOfText(ip4: Ip4)
    ensures ParseOctets(ip4.Text()) == Some(ip4.Octets())
  {
    SplitText(ip4);
    NumeralsParse(ip4);
  }

  lemma NumeralsParse(ip4: Ip4)
    ensures ParseAll(Numerals(ip4)) == Some(ip4.Octets())
  {
    var parts, octets := Numerals(ip4), ip4.Octets();
    forall i | 0 <= i < 4
      ensures ParseInt(parts[i]) == Some(octets[i])
    {
      assert parts[i] == NatToString(octets[i]);
      NatToStringRoundTrip(octets[i]);
    }
    ParseAllOfNumbers(parts, octets);
  }

  /** The `for ... else` loop of `sorter`: the index of the first pattern
      `text` matches, or one past the last value of the loop variable `n`
      when none does. With no patterns `n` was never bound, and reading it
      raises. */
  method MatchRank(text: string, prefer: seq<string>) returns (r: Result<nat>)
    ensures prefer == [] ==> r == Err(UnboundLocalError)
    ensures prefer != [] ==> r == Ok(PreferenceRank(text, prefer))
  {
    var n: Option<nat> := None;
    var i := 0;
    while i < |prefer|
      invariant 0 <= i <= |prefer|
      invariant n == if i == 0 then None else Some(i - 1)
      invariant forall j :: 0 <= j < i ==> !FnMatch(text, prefer[j])
    {
      n := Some(i);
      if FnMatch(text, prefer[i]) {
        RankAt(text, prefer, i);
        return Ok(i);
      }
      i := i + 1;
    }
    match n
    case None =>
      return Err(UnboundLocalError);
    case Some(last) =>
      RankAt(text, prefer, last + 1);
      return Ok(last + 1);
  }

  /** `sorter`: the key of one address, its preference rank followed by the
      integers of its dotted groups (which always parse, since the text is
      dotted decimal). It fails exactly when there are no patterns. */
  method Sorter(ip4: Ip4, prefer: seq<string>) returns (r: Result<Key>)
    ensures prefer == [] ==> r == Err(UnboundLocalError)
    ensures prefer != [] ==> r == Ok(RankKey(ip4, prefer))
  {
    var text := ip4.Text();
    OctetsOfText(ip4);
    var octets := ParseOctets(text).value;
    var rank := MatchRank(text, prefer);
    if rank.Err? {
      return Err(rank.error);
    }
    return Ok(Key(rank.value, octets));
  }

  /** `min` starts from the first address and its key. */
  lemma SelectFirst(addresses: seq<Ip4>, prefer: seq<string>, key: Key)
    requires addresses != [] && key == RankKey(addresses[0], prefer)
    ensures FirstMinIndex(RankKeys(addresses, prefer)[..1]) == 0
    ensures key == RankKeys(addresses, prefer)[0]
  {
    RankKeysAt(addresses, prefer, 0);
  }

  /** One round of `min`: `sorter` keys the next address, whose key replaces
      the current pick only when it is strictly smaller. */
  method SelectStep(addresses: seq<Ip4>, prefer: seq<string>, i: nat, best: nat, bestKey: Key)
    returns (next: nat, nextKey: Key)
    requires 1 <= i < |addresses| && prefer != []
    requires best == FirstMinIndex(RankKeys(addresses, prefer)[..i])
    requires bestKey == RankKeys(addresses, prefer)[best]
    ensures next == FirstMinIndex(RankKeys(addresses, prefer)[..i + 1])
    ensures nextKey == RankKeys(addresses, prefer)[next]
  {
    var key := Sorter(addresses[i], prefer);
    RankKeysAt(addresses, prefer, i);
    FirstMinIndexStep(RankKeys(addresses, prefer), i);
    if KeyLess(key.value, bestKey) {
      next, nextKey := i, key.value;
    } else {
      next, nextKey := best, bestKey;
    }
  }

  /** One more key moves the first minimum to it only when it is strictly
      smaller than the current pick. */
  lemma FirstMinIndexStep(keys: seq<Key>, i: nat)
    requires 1 <= i < |keys|
    ensures FirstMinIndex(keys[..i + 1]) ==
      if KeyLess(keys[i], keys[FirstMinIndex(keys[..i])]) then i else FirstMinIndex(keys[..i])
  {
    assert keys[..i + 1][..i] == keys[..i];
  }

  /** `min(addresses, key=sorter)` on a non-empty list: the position of the
      first address with the least key; the first key that raises stops it. */
  method SelectInterface(addresses: seq<Ip4>, prefer: seq<string>) returns (r: Result<nat>)
    requires addresses != []
    ensures prefer == [] ==> r == Err(UnboundLocalError)
    ensures prefer != [] ==> r.Ok? && r.value == FirstMinIndex(RankKeys(addresses, prefer))
  {
    var first := Sorter(addresses[0], prefer);
    if first.Err? {
      return Err(first.error);
    }
    var best, bestKey := 0, first.value;
    SelectFirst(addresses, prefer, bestKey);
    var i := 1;
    while i < |addresses|
      invariant 1 <= i <= |addresses|
      invariant prefer != []
      invariant best == FirstMinIndex(RankKeys(addresses, prefer)[..i])
      invariant bestKey == RankKeys(addresses, prefer)[best]
    {
      best, bestKey := SelectStep(addresses, prefer, i, best, bestKey);
      i := i + 1;
    }
    assert RankKeys(addresses, prefer)[..i] == RankKeys(addresses, prefer);
    return Ok(best);
  }

  /** What `find_valid_ip4` returns for the host's addresses: no address is an
      error, no preference pattern makes `sorter` fail, and otherwise it is the
      text of the first address with the least key. */
  function Discover(addresses: seq<Ip4>, prefer: Option<seq<string>>): Result<string> {
    var patterns := Preferences(prefer);
    if addresses == [] then Err(InvalidAddressError(NoAddressFound))
    else if patterns == [] then Err(UnboundLocalError)
    else Ok(addresses[FirstMinIndex(RankKeys(addresses, patterns))].Text())
  }

  /** A discovered IP is one of the host's addresses, passes `is_valid_ip`,
      and no address matches an earlier preference pattern than it does. */
  lemma DiscoveredIpIsPreferred(addresses: seq<Ip4>, prefer: Option<seq<string>>)
    ensures Discover(addresses, prefer).Ok? ==>
      var ip := Discover(addresses, prefer).value;
      var patterns := Preferences(prefer);
      && IsValidIp(ip) && ip != [] && ':' !in ip
      && exists k :: 0 <= k < |addresses| && addresses[k].Text() == ip
                  && forall j :: 0 <= j < |addresses| ==>
                       PreferenceRank(ip, patterns) <= PreferenceRank(addresses[j].Text(), patterns)
  {
    var patterns := Preferences(prefer);
    if addresses != [] && patterns != [] {
      var keys := RankKeys(addresses, patterns);
      var k := FirstMinIndex(keys);
      FirstMinIndexIsFirstMinimum(keys);
      TextIsValidIp(addresses[k]);
      RankKeysAt(addresses, patterns, k);
      forall j | 0 <= j < |addresses|
        ensures PreferenceRank(addresses[k].Text(), patterns) <= PreferenceRank(addresses[j].Text(), patterns)
      {
        RankKeysAt(addresses, patterns, j);
        assert keys[k].rank <= keys[j].rank;
      }
    }
  }

  /** The dotted-decimal text of 10.0.0.5, an address outside the default
      preference. */
  lemma FirstExampleText()
    ensures Ip4(10, 0, 0, 5).Text() == "10.0.0.5"
  {
    assert NatToString(1) == "1";
    assert NatToString(10) == "10";
  }

  /** The dotted-decimal text of 192.168.1.9, the address the default
      preference favours. */
  lemma SecondExampleText()
    ensures Ip4(192, 168, 1, 9).Text() == "192.168.1.9"
  {
    assert NatToString(1) == "1";
    assert NatToString(19) == "19";
    assert NatToString(192) == "192";
    assert NatToString(16) == "16";
    assert NatToString(168) == "168";
  }

  /** The dotted-decimal text of 172.16.0.2, a private address that the
      default preference does not match. */
  lemma ThirdExampleText()
    ensures Ip4(172, 16, 0, 2).Text() == "172.16.0.2"
  {
    assert NatToString(1) == "1";
    assert NatToString(17) == "17";
    assert NatToString(172) == "172";
    assert NatToString(16) == "16";
  }

  /** Under the default preference an address ranks 0 when its text starts
      with "192.168." and 1 otherwise. */
  lemma DefaultRank(text: string)
    ensures PreferenceRank(text, DefaultPreference) ==
      if |text| >= |DefaultPrefix| && text[..|DefaultPrefix|] == DefaultPrefix then 0 else 1
  {
    assert IsLiteral(DefaultPrefix);
    PrefixMatch(text, DefaultPrefix);
  }

  /** Three addresses of a host with the 192.168 address in the middle. */
  const ExampleHosts: seq<Ip4> := [Ip4(10, 0, 0, 5), Ip4(192, 168, 1, 9), Ip4(172, 16, 0, 2)]

  lemma ExampleRanks()
    ensures RankKeys(ExampleHosts, DefaultPreference)[0].rank == 1
    ensures RankKeys(ExampleHosts, DefaultPreference)[1].rank == 0
    ensures RankKeys(ExampleHosts, DefaultPreference)[2].rank == 1
  {
    RankKeysAt(ExampleHosts, DefaultPreference, 0);
    RankKeysAt(ExampleHosts, DefaultPreference, 1);
    RankKeysAt(ExampleHosts, DefaultPreference, 2);
    FirstExampleText();
    SecondExampleText();
    ThirdExampleText();
    DefaultRank("10.0.0.5");
    DefaultRank("192.168.1.9");
    DefaultRank("172.16.0.2");
    assert "10.0.0.5"[..8][1] != DefaultPrefix[1];
    assert "192.168.1.9"[..8] == DefaultPrefix;
    assert "172.16.0.2"[..8][1] != DefaultPrefix[1];
  }

  /** With the default preference, the 192.168 address wins over addresses
      that come before and after it. */
  lemma DefaultPreferenceExample()
    ensures Discover(ExampleHosts, None) == Ok("192.168.1.9")
  {
    var keys := RankKeys(ExampleHosts, DefaultPreference);
    assert FirstMinIndex(keys) == 1 by {
      assert IsFirstMinimum(keys, 1) by {
        ExampleRanks();
      }
      FirstMinIndexIsFirstMinimum(keys);
      FirstMinimumUnique(keys, 1, FirstMinIndex(keys));
    }
    SecondExampleText();
  }
}
