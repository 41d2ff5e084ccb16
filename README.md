# networkzero endpoint resolution, modelled in Dafny

networkzero's `address()` turns what a caller gives it into an `"ip:port"`
text that a local socket can bind to. The caller may give nothing, an IP, a
port, or both. This project models that logic from `networkzero/core.py` and
proves properties of the model. The model has four parts:

- **Address parsing** (`split_address`, `is_valid_ip`, `is_valid_port`,
  `is_valid_address`): module `AddressParser`. It rests on the pieces of
  Python's `str` and `int` modelled in `Strings` and on the `fnmatch` subset
  in `Glob`.
- **Interface ranking** (`find_valid_ip4` with its inner `sorter` and
  `min(addresses, key=sorter)`): module `Interfaces`.
  - `MatchRank` keeps the `for ... else` loop of `sorter` as a loop.
  - `SelectInterface` keeps `min` as a loop over the addresses.
  - `MatchRank` is proved against the specification function
    `PreferenceRank`, and `SelectInterface` against `RankKeys` and
    `FirstMinIndex`. `Core.Resolver.FindValidIp4` is proved against
    `Discover`, which builds on them.
- **Process state** (the global `PORT_POOL` and the cache `_ip4`): class
  `Core.Resolver`.
  - Fields `pool` and `cachedIp` hold that state.
  - The ghost history `drawn` records every port handed out.
  - `Valid()` says every dynamic port is either still in the pool or already
    handed out, exactly once. It also says a cached IP passes `is_valid_ip`.
- **Orchestration** (`address()`): `Core.Resolver.Address`.
  - It normalises the input and splits it.
  - It validates an explicit port, or draws one from the pool.
  - It fills in a missing IP from the cache, or from discovery.
  - It formats the result as `ip + ":" + str(port)`.

`Types` holds the shared values:

- `Option` and `Result`.
- The errors that can escape: `InvalidAddressError`, with the reason for it; the `IndexError` of `pop` on an empty pool; the `UnboundLocalError` of `sorter`; and the `ValueError` of `min` when `VALID_PORTS` is empty.
- `PortRange`, which stands for a Python `range` of ports.

The model follows the code in a few places where it differs from what one
might expect:

- `address(0)` is the same as `address()`, because `address or ""` treats
  `0` as no input (`Core.NumberInputSplit`).
- A supplied IP is never validated, although the docstring of `address`
  says an invalid one raises (`Core.SuppliedIpIsNotValidated`).
- An empty pool makes `PORT_POOL.pop()` raise a plain `IndexError`. No
  dedicated exhaustion error exists.
- A port outside an empty `VALID_PORTS` raises `ValueError`, not
  `InvalidAddressError`: building the message calls `min` on the empty range
  (`Core.ExplicitPort`).
- `int()` skips whitespace around a number but not the information
  separators U+001C..U+001F, although `strip` and `isspace` treat them as
  whitespace. A port padded with one of them is not a number
  (`Strings.ParseInt`).
- An empty preference list `prefer=[]` makes `sorter` raise
  `UnboundLocalError`. Its `else` branch reads the loop variable `n`, which
  was never bound (`Interfaces.MatchRank`).
- `find_valid_ip4` always queries the interfaces. Only `address()` looks at
  the cache first, and only when the cached text is non-empty.
- `is_valid_ip` is the regular expression `^\d{,3}\.\d{,3}\.\d{,3}\.\d{,3}$`
  under `re.match`. It puts no bound on the groups, allows empty groups, and
  also accepts one trailing newline, because `$` matches before a final
  newline.

## Model

| member | source | states |
|---|---|---|
| Types.PortRange.Elements | networkzero/core.py:70 | `list(range(start, stop))` has one entry per member of the range, each exactly once, and nothing else |
| Strings.Strip | networkzero/core.py:153 | `strip` leaves no whitespace at either end |
| Strings.StripPadded | networkzero/core.py:153 | `strip` removes exactly the whitespace around a trimmed text |
| Strings.NatToString | networkzero/core.py:185 | `str(n)` for n >= 0 is a digit run denoting n, with no leading zero unless n is 0 |
| Strings.IntToStringRoundTrip | networkzero/core.py:168 | `int(str(n)) == n` for every integer (no digit limit; see Left out) |
| Strings.IntToStringInjective | networkzero/core.py:185 | different integers have different `str` texts |
| Strings.PortTextExamples | networkzero/core.py:87 | `int("80") == 80`, `int("8080") == 8080`, `int("70000") == 70000` |
| Strings.AllPresent | networkzero/core.py:110 | a list of outcomes yields values exactly when none fails, and then it yields each outcome's value in order |
| Strings.ParseAllOfNumbers | networkzero/core.py:110 | `[int(i) for i in fields]` gives the list of values when each field parses to its value |
| Strings.Partition | networkzero/core.py:74 | `partition(":")` gives the text before the first colon and the text after it, or the whole text and "" when there is no colon |
| Strings.PartitionOfJoin | networkzero/core.py:74 | partitioning `before + ":" + after` with a colon-free `before` gives back `(before, after)` |
| Strings.Split | networkzero/core.py:110 | `split(".")` gives at least one piece, no piece holds the separator, and joining the pieces gives back the text |
| Strings.SplitOfJoin | networkzero/core.py:110 | splitting pieces joined by the separator gives back the pieces, when none holds the separator |
| Glob.LiteralMatch | networkzero/core.py:112 | a pattern without wildcards matches exactly itself |
| Glob.StarMatchesAll | networkzero/core.py:112 | `*` matches every name |
| Glob.PrefixMatch | networkzero/core.py:108-112 | `prefix*` matches exactly the names that start with the literal prefix, as `192.168.*` does |
| AddressParser.SplitAddress | networkzero/core.py:72-80 | the IP part has no colon; with a colon, `ip + ":" + port` is the input; without one, one part is the input and the other is empty, and the port is the non-empty part exactly when the input is all digits |
| AddressParser.SplitOfJoined | networkzero/core.py:72-80 | splitting `ip + ":" + port` with a colon-free IP gives back `(ip, port)` |
| AddressParser.DottedQuadIff | networkzero/core.py:82-83 | a text is a dotted quad exactly when it is four groups of at most three digits joined by dots |
| AddressParser.ValidIpOfGroups | networkzero/core.py:82-83 | any four groups of at most three digits, joined by dots, pass `is_valid_ip` |
| AddressParser.PrivateIpExample | networkzero/core.py:82-83 | `is_valid_ip("192.168.1.1")` |
| AddressParser.OutOfRangeIpExample | networkzero/core.py:82-83 | `is_valid_ip("999.999.999.999")`: no 0..255 bound |
| AddressParser.EmptyGroupsIpExample | networkzero/core.py:82-83 | `is_valid_ip("...")`: groups may be empty |
| AddressParser.TrailingNewlineExample | networkzero/core.py:82-83 | `is_valid_ip("1.2.3.4\n")`: `$` matches before a final newline |
| AddressParser.ThreeGroupsIpExample | networkzero/core.py:82-83 | `is_valid_ip("1.2.3")` is false |
| AddressParser.LongGroupIpExample | networkzero/core.py:82-83 | `is_valid_ip("1234.1.1.1")` is false |
| AddressParser.EmptyIsNotValidIp | networkzero/core.py:82-83 | `is_valid_ip("")` is false |
| AddressParser.ValidPortOfNumber | networkzero/core.py:85-89 | the decimal text of n is a valid port exactly when n is in the range |
| AddressParser.NumericPortExamples | networkzero/core.py:85-89 | `"80"` is a valid port in `range(65536)` and `"70000"` is not |
| AddressParser.NonNumericPortExamples | networkzero/core.py:85-89 | text that `int` rejects (`"abc"`, `""`) is an invalid port, not an error |
| AddressParser.InfoSeparatorPortExample | networkzero/core.py:85-89 | `strip` removes a leading U+001C from `"\x1c80"`, but `int` does not skip it, so the text is not a valid port |
| AddressParser.ValidAddressOfEndpoint | networkzero/core.py:91-93 | `ip + ":" + str(n)` with a colon-free IP is a valid address exactly when the IP is valid and n is in the range |
| AddressParser.BareTextIsNotValidAddress | networkzero/core.py:91-93 | a text without a colon is never a valid address |
| Interfaces.KeyLessIsStrictTotalOrder | networkzero/core.py:129 | Python's comparison of `(rank, octets)` keys is irreflexive and transitive, and any two different keys are comparable |
| Interfaces.PreferenceRank | networkzero/core.py:111-115 | the rank is the index of a matching pattern with no match before it, or the number of patterns when none matches |
| Interfaces.RankAt | networkzero/core.py:111-115 | the rank is the first position that matches, or one past the last pattern |
| Interfaces.MatchRank | networkzero/core.py:111-115 | the `for ... else` loop returns the preference rank, and fails with `UnboundLocalError` exactly when there are no patterns |
| Interfaces.TextIsValidIp | networkzero/core.py:121-125 | the dotted-decimal text of every host address passes `is_valid_ip` and holds no colon |
| Interfaces.OctetsOfText | networkzero/core.py:110 | `[int(i) for i in ip4.split(".")]` gives back the four octets of the address |
| Interfaces.Sorter | networkzero/core.py:109-115 | `sorter` returns the key (rank, octets) of the address, and fails exactly when there are no patterns |
| Interfaces.FirstMinIndexIsFirstMinimum | networkzero/core.py:129 | the position that `min` settles on holds a least key, and every key before it is strictly greater |
| Interfaces.FirstMinimumUnique | networkzero/core.py:129 | only one position has that property, so `min` has one answer |
| Interfaces.SelectStep | networkzero/core.py:129 | one round of `min`: after keying the next address, the pick is the first minimum of the keys seen so far |
| Interfaces.SelectInterface | networkzero/core.py:129 | `min(addresses, key=sorter)` picks the first position with the least key, or fails with `UnboundLocalError` when there are no patterns |
| Interfaces.DiscoveredIpIsPreferred | networkzero/core.py:99-131 | a discovered IP is one of the host's addresses, passes `is_valid_ip`, has no colon, and no host address matches an earlier pattern |
| Interfaces.FirstExampleText | networkzero/core.py:125 | the text of 10.0.0.5 is `"10.0.0.5"` |
| Interfaces.SecondExampleText | networkzero/core.py:125 | the text of 192.168.1.9 is `"192.168.1.9"` |
| Interfaces.ThirdExampleText | networkzero/core.py:125 | the text of 172.16.0.2 is `"172.16.0.2"` |
| Interfaces.DefaultRank | networkzero/core.py:107-115 | under the default `["192.168.*"]`, an address ranks 0 when its text starts with `192.168.` and 1 otherwise |
| Interfaces.ExampleRanks | networkzero/core.py:107-115 | the default ranks of 10.0.0.5, 192.168.1.9 and 172.16.0.2 are 1, 0 and 1 |
| Interfaces.DefaultPreferenceExample | networkzero/core.py:99-131 | with no preference, 192.168.1.9 wins over addresses before and after it |
| Core.NormalizeInput | networkzero/core.py:153 | the normalised input is trimmed, and no input or the integer 0 gives "" |
| Core.NumberInputSplit | networkzero/core.py:153-159 | an integer input: 0 is no input, a positive one is a bare port, and a negative one is taken for an IP |
| Core.PaddedTextSplit | networkzero/core.py:153-159 | whitespace around an `"ip:port"` text does not change the split |
| Core.ExplicitPort | networkzero/core.py:166-174 | an explicit port is accepted exactly when `is_valid_port` holds for it, and then its value is `int(port)`; text `int` rejects raises `InvalidAddressError` saying it is not a number; a number outside a non-empty range raises `InvalidAddressError` saying it is out of range, and outside an empty range `ValueError` |
| Core.ExplicitPortOfNumber | networkzero/core.py:166-174 | the decimal text of n is accepted as port n when n is in range; otherwise it is rejected as out of range, or raises `ValueError` when the range is empty |
| Core.EndpointRoundTrip | networkzero/core.py:185 | the result `ip:port` splits back into the IP and `str(port)`, which parses back to the port |
| Core.EndpointInjective | networkzero/core.py:185 | two results on the same IP are equal only for the same port |
| Core.ResolveIp | networkzero/core.py:179-183 | the IP is the given one; else the cached one when it is non-empty; else discovery's result |
| Core.CacheAfter | networkzero/core.py:129 | the cache changes only when no IP was given and discovery succeeds; a successful discovery (run when no IP was given and nothing non-empty is cached) is stored |
| Core.CachedIpIsReused | networkzero/core.py:179-181 | once cached, the IP answers every later request with no IP, whatever the host's addresses and the preference |
| Core.ResolvedEndpointIsValid | networkzero/core.py:179-185 | a discovered or cached IP with any port in `range(65536)` forms a valid address |
| Core.SuppliedIpIsNotValidated | networkzero/core.py:179 | the supplied IP `"localhost"` fails `is_valid_ip` and is still returned as the IP |
| Core.Resolver.constructor | networkzero/core.py:70 | the pool starts as the dynamic range's list, the cache empty, and nothing handed out |
| Core.Resolver.TakeDynamicPort | networkzero/core.py:176-177 | shuffle then pop: on an empty pool `IndexError` with nothing changed; otherwise one port of the pool leaves it (the pool shrinks by one) and is recorded as handed out |
| Core.Resolver.FindValidIp4 | networkzero/core.py:99-131 | returns `Discover` of the host's addresses, stores a successful result in the cache, and leaves the pool alone |
| Core.Resolver.Address | networkzero/core.py:133-185 | per case: an invalid explicit port fails with nothing changed; a valid one leaves the pool alone; with no port, one pool port is drawn even when IP discovery then fails; the result is the formatted resolved IP and port; and the cache is updated only by discovery |
| Core.PopKeepsAccount | networkzero/core.py:176-177 | moving the last port of a shuffled pool to the handed-out ports keeps every port accounted for |
| Core.NoPortIssuedTwice | networkzero/core.py:70 | no port is handed out twice, and each port handed out is a dynamic port |
| Core.ColonPortExample | networkzero/core.py:159-174 | `":8080"` names port 8080 and no IP, and a range from 1024 accepts it |
| Core.PortErrorExamples | networkzero/core.py:166-174 | port 80 against the empty `range(5, 5)` raises `ValueError`; the port text `"\x1c80"` raises `InvalidAddressError` saying it is not a number |
| Core.LowPortExample | networkzero/core.py:159-174 | `"80"` is a bare port, and a range from 1024 rejects it as out of range |
| Core.DefaultDiscoverySucceeds | networkzero/core.py:99-131 | with no preference and at least one host address, discovery gives a non-empty, colon-free IP |
| Core.TwoBareResolutions | networkzero/core.py:133-185 | two `address()` calls in a row with no input both succeed when the pool holds two ports; they name the same IP and different ports |

## Left out

- Logging setup (`get_logger` and its helpers, networkzero/core.py:11-36): I/O with no decisions in it.
- Exception classes and their `__str__` texts (networkzero/core.py:41-64): errors are the tags of `Types.Error`. The message texts are not modelled.
- `socket.getaddrinfo` (networkzero/core.py:121): the IPv4 addresses it reports are a parameter. The parameter may be any list, including the loopback-only answer (`127.0.0.1` once per socket type) that the call with no host name usually gives. The addresses are modelled as `Ip4` values whose text is dotted decimal, so a host reporting another text form is not modelled. The `socket.gaierror` that the call can raise is not modelled.
- `random.shuffle` (networkzero/core.py:176): any permutation of the pool may come out, chosen nondeterministically. The probability distribution is not modelled.
- `fnmatch.fnmatch` (networkzero/core.py:112): only literal characters, `*` and `?` are modelled. Bracket classes `[...]` and case normalisation on other platforms are not.
- The `config` module is not part of this model. `DYNAMIC_PORTS` and `VALID_PORTS` are `PortRange` parameters of the `Resolver` constructor.
- `address_sorter` (networkzero/core.py:95-96): a stub that returns `None`, and nothing calls it.
- `split_command` (networkzero/core.py:187): an alias of `shlex.split`, which is outside this logic.
- Strings.ParseInt: parses decimal text of any length. Recent CPython versions limit `int()` of a decimal text to 4300 digits and raise `ValueError` beyond that: 3.11 and later, and the security releases 3.7.14, 3.8.14, 3.9.14 and 3.10.7. Leading zeros count towards the limit. So a bare port written with more than 4300 digits, such as 4299 zeros followed by `80`, fails there with `InvalidAddressError` but is accepted by the model.
- Strings.IntToStringRoundTrip: holds for every integer in the model. Under the same limit, `str(n)` raises `ValueError` when n has more than 4300 digits, so on those versions the round trip covers only the integers below 10^4300 in absolute value.
- `int()` and `isdigit()` are modelled on ASCII digits only. The model leaves out the underscores `int` accepts between digits and the non-ASCII digits that `\d`, `isdigit` and `int` accept. `strip` uses Python's whitespace set, and `int` that set without U+001C..U+001F.
- `is_valid_port` given an `int` rather than a text: the model takes the port as text, as `is_valid_address` passes it.
- `address()` called with inputs other than nothing, an integer or a text (a float, say): the model's `Input` covers those three.
- Concurrency: the pool and the cache are process globals with no locking. The model runs one call at a time.
