/**
 * The glob the client uses to route inbound messages to subscribers (mongoose's
 * `mg_match`): '?' matches any one character, '*' a run of characters without
 * '/', '#' any run of characters, and every other pattern character itself.
 * This is not the wildcard rule of the MQTT Version 5.0 standard (section
 * 4.7.1): there "a/#" also matches "a", here it does not.
 */
module TopicMatch {
  import Text

  predicate IsWildcard(c: char) {
    c == '?' || c == '*' || c == '#'
  }

  /** Whether a pattern contains no wildcard character. */
  predicate Literal(p: string) {
    forall i :: 0 <= i < |p| ==> !IsWildcard(p[i])
  }

  /** Whether the whole of `s` matches the whole of pattern `p`. */
  predicate Match(s: string, p: string)
    decreases |s| + |p|
  {
    if |p| == 0 then |s| == 0
    else if p[0] == '?' then |s| > 0 && Match(s[1..], p[1..])
    else if p[0] == '*' then Match(s, p[1..]) || (|s| > 0 && s[0] != '/' && Match(s[1..], p))
    else if p[0] == '#' then Match(s, p[1..]) || (|s| > 0 && Match(s[1..], p))
    else |s| > 0 && s[0] == p[0] && Match(s[1..], p[1..])
  }

  /** Against a pattern without wildcards, only the pattern itself matches. */
  lemma {:induction false} LiteralMatchesItself(s: string, p: string)
    requires Literal(p)
    ensures Match(s, p) <==> s == p
    decreases |p|
  {
    if |p| > 0 && |s| > 0 {
      LiteralMatchesItself(s[1..], p[1..]);
      if s[0] == p[0] && s[1..] == p[1..] {
        assert s == [s[0]] + s[1..] && p == [p[0]] + p[1..];
      }
    }
  }

  /** A literal head of the pattern consumes exactly the same head of the text. */
  lemma {:induction false} LiteralPrefix(s: string, prefix: string, rest: string)
    requires Literal(prefix)
    ensures Match(s, prefix + rest) <==> Text.StartsWith(s, prefix) && Match(s[|prefix|..], rest)
    decreases |prefix|
  {
    if |prefix| == 0 {
      assert prefix + rest == rest;
      assert s[0..] == s;
    } else {
      var p := prefix + rest;
      assert p[0] == prefix[0] && p[1..] == prefix[1..] + rest;
      if |s| > 0 {
        LiteralPrefix(s[1..], prefix[1..], rest);
        if |prefix| <= |s| {
          assert s[1..][|prefix| - 1..] == s[|prefix|..];
          assert Text.StartsWith(s, prefix) <==> s[0] == prefix[0] && Text.StartsWith(s[1..], prefix[1..]) by {
            assert s[..|prefix|] == [s[0]] + s[1..][..|prefix| - 1];
            assert prefix == [prefix[0]] + prefix[1..];
          }
        }
      }
    }
  }

  /** '*' alone matches exactly the texts without a separator. */
  lemma {:induction false} StarMatches(s: string)
    ensures Match(s, "*") <==> '/' !in s
    decreases |s|
  {
    assert "*"[1..] == "";
    if |s| > 0 {
      StarMatches(s[1..]);
      assert s == [s[0]] + s[1..];
    }
  }

  /** '#' alone matches every text. */
  lemma {:induction false} HashMatches(s: string)
    ensures Match(s, "#")
    decreases |s|
  {
    assert "#"[1..] == "";
    if |s| > 0 {
      HashMatches(s[1..]);
    }
  }

  /**
   * A filter "prefix" + "*" with a literal prefix (such as "post/" + "*") matches exactly the topics that
   * extend the prefix by one more element without a separator.
   */
  lemma PrefixStar(s: string, prefix: string)
    requires Literal(prefix)
    ensures Match(s, prefix + "*") <==> Text.StartsWith(s, prefix) && '/' !in s[|prefix|..]
  {
    LiteralPrefix(s, prefix, "*");
    if Text.StartsWith(s, prefix) {
      StarMatches(s[|prefix|..]);
    }
  }

  /** A filter "prefix#" with a literal prefix matches exactly the topics starting with the prefix. */
  lemma PrefixHash(s: string, prefix: string)
    requires Literal(prefix)
    ensures Match(s, prefix + "#") <==> Text.StartsWith(s, prefix)
  {
    LiteralPrefix(s, prefix, "#");
    if Text.StartsWith(s, prefix) {
      HashMatches(s[|prefix|..]);
    }
  }

  /** Unlike the MQTT rule, "a/#" does not match its own parent "a"; it does match "a/". */
  lemma ParentNotMatched()
    ensures !Match("a", "a/#")
    ensures Match("a/", "a/#")
  {
    assert Literal("a/");
    PrefixHash("a", "a/");
    PrefixHash("a/", "a/");
    assert "a/" + "#" == "a/#";
  }
}
