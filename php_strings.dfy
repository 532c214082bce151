/** The PHP string built-ins the class relies on: `trim` with a character
    list and `explode` with a limit of two.  `implode` with a one-character
    glue is not called by the class; it is here as the inverse that the
    round-trip lemmas about `explode` are stated with.  PHP strings are byte strings; every character these functions
    compare against is ASCII, so a `string` of Dafny characters models them. */
module PhpStrings {
  import opened Wrappers

  /** The characters `trim($s)` strips when no list is given:
      space, tab, line feed, carriage return, NUL and vertical tab. */
  const DefaultTrimChars: set<char> := {' ', '\t', '\n', '\r', '\0', '\U{0B}'}

  /** Strips leading characters that are in `chars`. */
  function TrimStart(s: string, chars: set<char>): (r: string)
    ensures |r| <= |s| && r == s[|s| - |r|..]
    ensures forall i :: 0 <= i < |s| - |r| ==> s[i] in chars
    ensures r == [] || r[0] !in chars
    decreases |s|
  {
    if |s| > 0 && s[0] in chars then TrimStart(s[1..], chars) else s
  }

  /** Strips trailing characters that are in `chars`. */
  function TrimEnd(s: string, chars: set<char>): (r: string)
    ensures |r| <= |s| && r == s[..|r|]
    ensures forall i :: |r| <= i < |s| ==> s[i] in chars
    ensures r == [] || r[|r| - 1] !in chars
    decreases |s|
  {
    if |s| > 0 && s[|s| - 1] in chars then TrimEnd(s[..|s| - 1], chars) else s
  }

  /** PHP's `trim($s, $chars)`: strip from the front, then from the back.
      Neither end of the result is a stripped character. */
  function Trim(s: string, chars: set<char>): (r: string)
    ensures |r| <= |s|
    ensures r == [] || (r[0] !in chars && r[|r| - 1] !in chars)
  {
    TrimEnd(TrimStart(s, chars), chars)
  }

  /** The result of `trim` is one contiguous piece of `s`: everything cut
      off on either side is in `chars`, and nothing inside is touched. */
  lemma TrimIsSlice(s: string, chars: set<char>)
    ensures exists i, j :: 0 <= i <= j <= |s| && Trim(s, chars) == s[i..j]
                           && (forall k :: 0 <= k < i ==> s[k] in chars)
                           && (forall k :: j <= k < |s| ==> s[k] in chars)
  {
    var front := TrimStart(s, chars);
    var r := TrimEnd(front, chars);
    var i := |s| - |front|;
    var j := i + |r|;
    assert r == s[i..j];
    forall k | j <= k < |s| ensures s[k] in chars {
      assert s[k] == front[k - i];
    }
  }

  /** Stripping a piece whose ends are kept gives back that piece. */
  lemma TrimStartKeeps(s: string, chars: set<char>)
    requires s == [] || s[0] !in chars
    ensures TrimStart(s, chars) == s
  {
  }

  lemma TrimEndKeeps(s: string, chars: set<char>)
    requires s == [] || s[|s| - 1] !in chars
    ensures TrimEnd(s, chars) == s
  {
  }

  /** A string whose first character is kept keeps it under `TrimEnd`. */
  lemma TrimEndKeepsFirst(s: string, chars: set<char>)
    requires |s| > 0 && s[0] !in chars
    ensures var r := TrimEnd(s, chars); |r| > 0 && r[0] == s[0]
  {
  }

  /** Trimming twice is trimming once. */
  lemma TrimIdempotent(s: string, chars: set<char>)
    ensures Trim(Trim(s, chars), chars) == Trim(s, chars)
  {
    var r := Trim(s, chars);
    TrimStartKeeps(r, chars);
    TrimEndKeeps(r, chars);
  }

  /** Leading stripped characters are skipped up to the first kept one. */
  lemma {:induction false} TrimStartSkips(pre: string, rest: string, chars: set<char>)
    requires forall k :: 0 <= k < |pre| ==> pre[k] in chars
    requires rest == [] || rest[0] !in chars
    ensures TrimStart(pre + rest, chars) == rest
    decreases |pre|
  {
    if pre == [] {
      assert pre + rest == rest;
      TrimStartKeeps(rest, chars);
    } else {
      assert (pre + rest)[0] == pre[0];
      assert (pre + rest)[1..] == pre[1..] + rest;
      TrimStartSkips(pre[1..], rest, chars);
    }
  }

  /** Trailing stripped characters are skipped back to the last kept one. */
  lemma {:induction false} TrimEndSkips(rest: string, post: string, chars: set<char>)
    requires forall k :: 0 <= k < |post| ==> post[k] in chars
    requires rest == [] || rest[|rest| - 1] !in chars
    ensures TrimEnd(rest + post, chars) == rest
    decreases |post|
  {
    if post == [] {
      assert rest + post == rest;
      TrimEndKeeps(rest, chars);
    } else {
      var s := rest + post;
      var shorter := post[..|post| - 1];
      assert s[|s| - 1] == post[|post| - 1];
      assert s[..|s| - 1] == rest + shorter;
      TrimEndSkips(rest, shorter, chars);
    }
  }

  /** An independent description of `Trim`: whatever is cut as `pre + mid + post`
      with `pre` and `post` made only of stripped characters and `mid`
      starting and ending with kept characters, `Trim` returns `mid`. */
  lemma TrimUnique(pre: string, mid: string, post: string, chars: set<char>)
    requires forall k :: 0 <= k < |pre| ==> pre[k] in chars
    requires forall k :: 0 <= k < |post| ==> post[k] in chars
    requires mid == [] || (mid[0] !in chars && mid[|mid| - 1] !in chars)
    ensures Trim(pre + mid + post, chars) == mid
  {
    if mid == [] {
      var all := pre + post;
      assert pre + mid + post == all;
      assert forall k :: 0 <= k < |all| ==> all[k] in chars by {
        forall k | 0 <= k < |all| ensures all[k] in chars {
          if k < |pre| { assert all[k] == pre[k]; } else { assert all[k] == post[k - |pre|]; }
        }
      }
      TrimStartSkips(all, [], chars);
      assert all + [] == all;
    } else {
      assert pre + mid + post == pre + (mid + post);
      assert (mid + post)[0] == mid[0];
      TrimStartSkips(pre, mid + post, chars);
      TrimEndSkips(mid, post, chars);
    }
  }

  /** The position of the first `c` in `s`, if any. */
  function IndexOf(s: string, c: char): (r: Option<nat>)
    ensures r.None? <==> c !in s
    ensures r.Some? ==> r.value < |s| && s[r.value] == c && c !in s[..r.value]
    decreases |s|
  {
    if |s| == 0 then None
    else if s[0] == c then Some(0)
    else match IndexOf(s[1..], c)
      case None => None
      case Some(i) =>
        assert s[..i + 1] == [s[0]] + s[1..][..i];
        Some(i + 1)
  }

  /** PHP's `explode($sep, $s, 2)`: `s` whole when it has no `sep`,
      otherwise the part before the first `sep` and everything after it. */
  function Explode2(sep: char, s: string): (parts: seq<string>)
  {
    match IndexOf(s, sep)
    case None => [s]
    case Some(i) => [s[..i], s[i + 1..]]
  }

  /** PHP's `implode($glue, $parts)` for a one-character glue. */
  function Implode(glue: char, parts: seq<string>): string
  {
    if |parts| == 0 then ""
    else if |parts| == 1 then parts[0]
    else parts[0] + [glue] + Implode(glue, parts[1..])
  }

  /** Splitting at the first `sep` gives one or two parts, the first free of
      `sep`; gluing them back with `sep` restores `s`. */
  lemma ExplodeImplode(sep: char, s: string)
    ensures var parts := Explode2(sep, s);
      && 1 <= |parts| <= 2
      && sep !in parts[0]
      && (|parts| == 2 <==> sep in s)
      && Implode(sep, parts) == s
  {
    match IndexOf(s, sep)
    case None =>
    case Some(i) =>
      assert s == s[..i] + [sep] + s[i + 1..];
  }

  /** The other direction: two parts, the first free of `sep`, survive
      `implode` followed by `explode`, even when the second holds `sep`. */
  lemma ImplodeExplode(sep: char, first: string, rest: string)
    requires sep !in first
    ensures Explode2(sep, Implode(sep, [first, rest])) == [first, rest]
  {
    var s := first + [sep] + rest;
    assert Implode(sep, [first, rest]) == s;
    assert s[|first|] == sep;
    match IndexOf(s, sep)
    case None =>
    case Some(i) =>
      assert forall k :: 0 <= k < |first| ==> s[k] == first[k];
      assert i == |first|;
      assert s[..i] == first;
      assert s[i + 1..] == rest;
  }
}
