/**
 * The few operations of JavaScript strings that the server relies on:
 * `trim`, `toLowerCase`, `startsWith`, `includes`, and the truthiness of an
 * optional string (`null`, `undefined` and `''` are falsy).
 */
module JsString {
  import opened Wrappers

  /** The WhiteSpace and LineTerminator code points that `String.prototype.trim` removes. */
  predicate IsJsWhitespace(c: char) {
    || c == '\t' || c == '\n' || c == '\U{000B}' || c == '\U{000C}' || c == '\r' || c == ' '
    || c == '\U{00A0}' || c == '\U{1680}' || ('\U{2000}' <= c <= '\U{200A}')
    || c == '\U{2028}' || c == '\U{2029}' || c == '\U{202F}' || c == '\U{205F}'
    || c == '\U{3000}' || c == '\U{FEFF}'
  }

  /** Drops leading white space: what is left is a suffix of `s`. */
  function TrimStart(s: string): (r: string)
    ensures |r| <= |s| && r == s[|s| - |r|..]
  {
    if s != [] && IsJsWhitespace(s[0]) then TrimStart(s[1..]) else s
  }

  /** Drops trailing white space: what is left is a prefix of `s`. */
  function TrimEnd(s: string): (r: string)
    ensures |r| <= |s| && r == s[..|r|]
  {
    if s != [] && IsJsWhitespace(s[|s| - 1]) then TrimEnd(s[..|s| - 1]) else s
  }

  /** `s.trim()` */
  function Trim(s: string): string {
    TrimEnd(TrimStart(s))
  }

  /** `TrimStart` removes exactly the leading run of white space. */
  lemma {:induction false} TrimStartRemovesWhitespace(s: string)
    ensures TrimStart(s) != [] ==> !IsJsWhitespace(TrimStart(s)[0])
    ensures forall k | 0 <= k < |s| - |TrimStart(s)| :: IsJsWhitespace(s[k])
  {
    if s != [] && IsJsWhitespace(s[0]) {
      TrimStartRemovesWhitespace(s[1..]);
      forall k | 1 <= k < |s| - |TrimStart(s)| ensures IsJsWhitespace(s[k]) {
        assert s[k] == s[1..][k - 1];
      }
    }
  }

  /** `TrimEnd` removes exactly the trailing run of white space. */
  lemma {:induction false} TrimEndRemovesWhitespace(s: string)
    ensures TrimEnd(s) != [] ==> !IsJsWhitespace(TrimEnd(s)[|TrimEnd(s)| - 1])
    ensures forall k | |TrimEnd(s)| <= k < |s| :: IsJsWhitespace(s[k])
  {
    if s != [] && IsJsWhitespace(s[|s| - 1]) {
      TrimEndRemovesWhitespace(s[..|s| - 1]);
      forall k | |TrimEnd(s)| <= k < |s| - 1 ensures IsJsWhitespace(s[k]) {
        assert s[k] == s[..|s| - 1][k];
      }
    }
  }

  /** Where `Trim(s)` starts inside `s`. */
  function TrimOffset(s: string): nat {
    |s| - |TrimStart(s)|
  }

  /** `Trim(s)` is the slice of `s` that starts at `TrimOffset(s)`. */
  lemma TrimIsSlice(s: string)
    ensures TrimOffset(s) + |Trim(s)| <= |s|
    ensures Trim(s) == s[TrimOffset(s)..TrimOffset(s) + |Trim(s)|]
  {
    var u := TrimStart(s);
    assert TrimEnd(u) == s[|s| - |u|..][..|TrimEnd(u)|];
  }

  /** White space follows `Trim(s)` up to the end of `s`. */
  lemma TrimSuffixIsWhitespace(s: string)
    ensures TrimOffset(s) + |Trim(s)| <= |s|
    ensures forall k | TrimOffset(s) + |Trim(s)| <= k < |s| :: IsJsWhitespace(s[k])
  {
    var u := TrimStart(s);
    var i := |s| - |u|;
    TrimIsSlice(s);
    TrimEndRemovesWhitespace(u);
    ShiftedAll(s, i, |TrimEnd(u)|, IsJsWhitespace);
  }

  /** A property of every element of `s[i..]` from `lo` on holds of `s` from `i + lo` on. */
  lemma ShiftedAll(s: string, i: nat, lo: nat, P: char -> bool)
    requires i <= |s|
    requires forall k | lo <= k < |s| - i :: P(s[i..][k])
    ensures forall k | i + lo <= k < |s| :: P(s[k])
  {
    forall k | i + lo <= k < |s| ensures P(s[k]) {
      assert s[k] == s[i..][k - i];
    }
  }

  /** The trimmed string is the part of `s` between two runs of white space. */
  lemma TrimIsInfix(s: string)
    ensures TrimOffset(s) + |Trim(s)| <= |s|
    ensures Trim(s) == s[TrimOffset(s)..TrimOffset(s) + |Trim(s)|]
    ensures forall k | 0 <= k < TrimOffset(s) :: IsJsWhitespace(s[k])
    ensures forall k | TrimOffset(s) + |Trim(s)| <= k < |s| :: IsJsWhitespace(s[k])
    ensures Trim(s) != [] ==> !IsJsWhitespace(Trim(s)[0]) && !IsJsWhitespace(Trim(s)[|Trim(s)| - 1])
  {
    TrimIsSlice(s);
    TrimSuffixIsWhitespace(s);
    TrimStartRemovesWhitespace(s);
    TrimEndRemovesWhitespace(TrimStart(s));
    if Trim(s) != [] {
      var u := TrimStart(s);
      assert Trim(s)[0] == u[0];
    }
  }

  /** A string that neither starts nor ends with white space is its own trim. */
  lemma TrimOfTrimmed(s: string)
    requires s != [] ==> !IsJsWhitespace(s[0]) && !IsJsWhitespace(s[|s| - 1])
    ensures Trim(s) == s
  {
  }

  /** Trimming twice is trimming once. */
  lemma TrimIdempotent(s: string)
    ensures Trim(Trim(s)) == Trim(s)
  {
    TrimIsInfix(s);
    TrimOfTrimmed(Trim(s));
  }

  /** The ASCII case mapping of `toLowerCase`. */
  function LowerChar(c: char): char {
    if 'A' <= c <= 'Z' then (c as int + 32) as char else c
  }

  /** `s.toLowerCase()`, restricted to the ASCII letters. */
  function ToLowerCase(s: string): string {
    seq(|s|, k requires 0 <= k < |s| => LowerChar(s[k]))
  }

  /** `s.startsWith(prefix)` */
  predicate StartsWith(s: string, prefix: string) {
    |prefix| <= |s| && s[..|prefix|] == prefix
  }

  /** `sub` occurs in `s` starting at index `k`. */
  predicate OccursAt(s: string, sub: string, k: int) {
    0 <= k && k + |sub| <= |s| && s[k..k + |sub|] == sub
  }

  /** `s.includes(sub)`, by trying every start position in turn. */
  function Includes(s: string, sub: string): bool {
    StartsWith(s, sub) || (s != [] && Includes(s[1..], sub))
  }

  lemma {:induction false} IncludesIff(s: string, sub: string)
    ensures Includes(s, sub) <==> exists k :: OccursAt(s, sub, k)
  {
    if StartsWith(s, sub) {
      assert OccursAt(s, sub, 0);
    } else if s == [] {
    } else {
      IncludesIff(s[1..], sub);
      if Includes(s[1..], sub) {
        var k :| OccursAt(s[1..], sub, k);
        assert s[1..][k..k + |sub|] == s[k + 1..k + 1 + |sub|];
        assert OccursAt(s, sub, k + 1);
      }
      forall k | OccursAt(s, sub, k) ensures Includes(s[1..], sub) {
        if k > 0 {
          assert s[1..][k - 1..k - 1 + |sub|] == s[k..k + |sub|];
          assert OccursAt(s[1..], sub, k - 1);
        }
      }
    }
  }

  /** A string that starts with `sub` includes it. */
  lemma StartsWithIncludes(s: string, sub: string)
    requires StartsWith(s, sub)
    ensures Includes(s, sub)
  {
  }

  /** `s` includes `sub` when `s` is built around an occurrence of it. */
  lemma IncludesInside(pre: string, sub: string, post: string)
    ensures Includes(pre + sub + post, sub)
  {
    var s := pre + sub + post;
    assert s[|pre|..|pre| + |sub|] == sub;
    assert OccursAt(s, sub, |pre|);
    IncludesIff(s, sub);
  }

  /** JavaScript truthiness of a string field that may be `null`/`undefined`. */
  predicate Truthy(o: Option<string>) {
    o.Some? && o.value != ""
  }
}
