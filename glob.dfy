/** Shell-style pattern matching as `fnmatch.fnmatch` does it on POSIX, for
    patterns made of literal characters, `*` (any run of characters, empty
    included) and `?` (exactly one character). The whole name must match. */
module Glob {

  predicate FnMatch(name: string, pattern: string)
    decreases |name| + |pattern|
  {
    if pattern == [] then name == []
    else if pattern[0] == '*' then
      FnMatch(name, pattern[1..]) || (name != [] && FnMatch(name[1..], pattern))
    else
      name != [] && (pattern[0] == '?' || pattern[0] == name[0]) && FnMatch(name[1..], pattern[1..])
  }

  /** A pattern without wildcards. */
  predicate IsLiteral(pattern: string) {
    '*' !in pattern && '?' !in pattern
  }

  /** A pattern without wildcards matches exactly itself. */
  lemma {:induction false} LiteralMatch(name: string, pattern: string)
    requires IsLiteral(pattern)
    ensures FnMatch(name, pattern) <==> name == pattern
  {
    if pattern != [] && name != [] {
      LiteralMatch(name[1..], pattern[1..]);
      assert name == [name[0]] + name[1..];
      assert pattern == [pattern[0]] + pattern[1..];
    }
  }

  /** A lone `*` matches every name. */
  lemma {:induction false} StarMatchesAll(name: string)
    ensures FnMatch(name, "*")
  {
    assert "*"[1..] == [];
    if name != [] {
      StarMatchesAll(name[1..]);
    }
  }

  /** `prefix*` matches exactly the names that start with the literal `prefix`:
      the form of the default preference pattern `192.168.*`. */
  lemma {:induction false} PrefixMatch(name: string, prefix: string)
    requires IsLiteral(prefix)
    ensures FnMatch(name, prefix + "*") <==> (|prefix| <= |name| && name[..|prefix|] == prefix)
  {
    if prefix == [] {
      assert prefix + "*" == "*";
      StarMatchesAll(name);
    } else {
      assert (prefix + "*")[0] == prefix[0];
      assert (prefix + "*")[1..] == prefix[1..] + "*";
      if name != [] {
        PrefixMatch(name[1..], prefix[1..]);
        if |prefix| <= |name| {
          assert name[..|prefix|] == [name[0]] + name[1..][..|prefix| - 1];
          assert prefix == [prefix[0]] + prefix[1..];
        }
      }
    }
  }
}
