/** `Pdf::parseOptions` (src/Pdf.php:90-104): each user string becomes one
    or two command-line tokens, and the token lists are joined in order.
    `array_merge` of two integer-keyed lists appends the second to the first,
    so a flag given twice is passed twice; nothing is overridden by name. */
module PdfOptions {
  import opened Wrappers
  import opened PhpStrings

  /** The mapper's dash rule: keep `t` when it already starts with `-`,
      otherwise put one `-` in front (an empty `t` has no first character,
      so it becomes `"-"`).  The result starts with `-`, and when it is not
      `t` itself it is `t` behind exactly one added character. */
  function WithDash(t: string): (r: string)
    ensures |r| > 0 && r[0] == '-'
    ensures r == t <==> (|t| > 0 && t[0] == '-')
    ensures r != t ==> r[1..] == t
  {
    if |t| > 0 && t[0] == '-' then t else "-" + t
  }

  /** The string the mapper splits: trimmed with PHP's default list, then dashed. */
  function NormaliseText(content: string): string
  {
    WithDash(Trim(content, DefaultTrimChars))
  }

  /** The mapper closure: the tokens one option string contributes. */
  function Normalise(content: string): seq<string>
  {
    Explode2(' ', NormaliseText(content))
  }

  /** `array_map($mapper, $options)`. */
  function MapNormalise(options: seq<string>): seq<seq<string>>
  {
    seq(|options|, i requires 0 <= i < |options| => Normalise(options[i]))
  }

  /** The reducer closure: `array_merge` of two lists. */
  function Merge(carry: seq<string>, option: seq<string>): seq<string>
  {
    carry + option
  }

  /** `array_reduce($lists, $reducer, $carry)`: a left fold. */
  function Reduce(lists: seq<seq<string>>, carry: seq<string>): seq<string>
    decreases |lists|
  {
    if |lists| == 0 then carry else Reduce(lists[1..], Merge(carry, lists[0]))
  }

  /** `parseOptions($options)`. */
  function ParseOptions(options: seq<string>): seq<string>
  {
    Reduce(MapNormalise(options), [])
  }

  /** The lists joined front to back: the reference meaning of the fold. */
  function Concat(lists: seq<seq<string>>): seq<string>
    decreases |lists|
  {
    if |lists| == 0 then [] else lists[0] + Concat(lists[1..])
  }

  lemma {:induction false} ReduceIsConcat(lists: seq<seq<string>>, carry: seq<string>)
    ensures Reduce(lists, carry) == carry + Concat(lists)
    decreases |lists|
  {
    if |lists| > 0 {
      ReduceIsConcat(lists[1..], carry + lists[0]);
    }
  }

  lemma {:induction false} ConcatAppend(a: seq<seq<string>>, b: seq<seq<string>>)
    ensures Concat(a + b) == Concat(a) + Concat(b)
    decreases |a|
  {
    if |a| > 0 {
      assert (a + b)[1..] == a[1..] + b;
      ConcatAppend(a[1..], b);
    } else {
      assert a + b == b;
    }
  }

  /** The dash rule, stated on the user's string: the result always starts
      with `-`; it is the trimmed string itself exactly when that already
      starts with `-`, and otherwise the trimmed string behind one `-`.
      An input made only of trimmed characters (the empty string included)
      yields `"-"`.  The last character is never one `trim` strips. */
  lemma NormaliseTextDash(content: string)
    ensures var t := Trim(content, DefaultTrimChars);
      var r := NormaliseText(content);
      && |r| > 0 && r[0] == '-'
      && (r == t <==> (|t| > 0 && t[0] == '-'))
      && (r != t ==> r == "-" + t)
      && r[|r| - 1] !in DefaultTrimChars
    ensures (forall k :: 0 <= k < |content| ==> content[k] in DefaultTrimChars) ==>
      NormaliseText(content) == "-"
  {
    if forall k :: 0 <= k < |content| ==> content[k] in DefaultTrimChars {
      TrimUnique(content, [], [], DefaultTrimChars);
      assert content + [] + [] == content;
    }
  }

  /** One option string gives one or two tokens.  The first is the flag: it
      starts with `-` and holds no space.  There is a second exactly when the
      normalised string has a space; it is everything after the first space,
      is never empty, and may hold further spaces.  Joining the tokens with
      one space gives back the normalised string. */
  lemma NormaliseTokens(content: string)
    ensures var r := NormaliseText(content);
      var tokens := Normalise(content);
      && 1 <= |tokens| <= 2
      && |tokens[0]| > 0 && tokens[0][0] == '-' && ' ' !in tokens[0]
      && (|tokens| == 2 <==> ' ' in r)
      && (|tokens| == 2 ==> tokens[1] != [])
      && Implode(' ', tokens) == r
  {
    var r := NormaliseText(content);
    NormaliseTextDash(content);
    ExplodeImplode(' ', r);
    match IndexOf(r, ' ')
    case None =>
    case Some(i) =>
      assert r[..i][0] == '-';
  }

  lemma MapNormaliseAppend(xs: seq<string>, ys: seq<string>)
    ensures MapNormalise(xs + ys) == MapNormalise(xs) + MapNormalise(ys)
  {
    var l, a, b := MapNormalise(xs + ys), MapNormalise(xs), MapNormalise(ys);
    assert |l| == |a + b|;
    forall i | 0 <= i < |l| ensures l[i] == (a + b)[i] {
      assert l[i] == Normalise((xs + ys)[i]);
      if i < |xs| {
        assert (xs + ys)[i] == xs[i] && (a + b)[i] == a[i] == Normalise(xs[i]);
      } else {
        assert (xs + ys)[i] == ys[i - |xs|] && (a + b)[i] == b[i - |xs|] == Normalise(ys[i - |xs|]);
      }
    }
  }

  /** `parseOptions` is the in-order concatenation of the per-option token lists. */
  lemma ParseOptionsIsConcat(xs: seq<string>)
    ensures ParseOptions(xs) == Concat(MapNormalise(xs))
  {
    ReduceIsConcat(MapNormalise(xs), []);
  }

  /** Parsing two batches is parsing each and appending: what `addOptions`
      adds never replaces what is there. */
  lemma ParseOptionsAppend(xs: seq<string>, ys: seq<string>)
    ensures ParseOptions(xs + ys) == ParseOptions(xs) + ParseOptions(ys)
  {
    ParseOptionsIsConcat(xs);
    ParseOptionsIsConcat(ys);
    ParseOptionsIsConcat(xs + ys);
    MapNormaliseAppend(xs, ys);
    ConcatAppend(MapNormalise(xs), MapNormalise(ys));
  }

  /** A single option parses to its own tokens. */
  lemma ParseOptionsSingle(x: string)
    ensures ParseOptions([x]) == Normalise(x)
  {
    ParseOptionsIsConcat([x]);
    assert MapNormalise([x])[1..] == [];
  }

  /** Each option contributes one or two tokens. */
  lemma {:induction false} ParseOptionsLength(xs: seq<string>)
    ensures |xs| <= |ParseOptions(xs)| <= 2 * |xs|
    decreases |xs|
  {
    if |xs| == 0 {
      assert MapNormalise(xs) == [];
    } else {
      var n := |xs| - 1;
      assert xs == xs[..n] + [xs[n]];
      ParseOptionsAppend(xs[..n], [xs[n]]);
      ParseOptionsSingle(xs[n]);
      NormaliseTokens(xs[n]);
      ParseOptionsLength(xs[..n]);
    }
  }

  /** Where option `i` lands: its tokens follow those of the options before
      it, unchanged, and the first of them is a flag starting with `-`. */
  lemma ParseOptionsAt(xs: seq<string>, i: nat)
    requires i < |xs|
    ensures var before := ParseOptions(xs[..i]);
      var mine := Normalise(xs[i]);
      && ParseOptions(xs) == before + mine + ParseOptions(xs[i + 1..])
      && |before| < |ParseOptions(xs)|
      && ParseOptions(xs)[|before|][0] == '-'
  {
    assert xs == xs[..i] + [xs[i]] + xs[i + 1..];
    ParseOptionsAppend(xs[..i] + [xs[i]], xs[i + 1..]);
    ParseOptionsAppend(xs[..i], [xs[i]]);
    ParseOptionsSingle(xs[i]);
    NormaliseTokens(xs[i]);
  }

  /** An option string already trimmed and dashed, with `flag` free of spaces,
      parses to the two tokens `[flag, value]`. */
  lemma ParseFlagValue(flag: string, value: string)
    requires |flag| > 0 && flag[0] == '-' && ' ' !in flag
    requires |value| > 0 && value[|value| - 1] !in DefaultTrimChars
    ensures ParseOptions([flag + " " + value]) == [flag, value]
  {
    var s := flag + " " + value;
    TrimUnique([], s, [], DefaultTrimChars);
    assert [] + s + [] == s;
    assert s[0] == '-';
    ImplodeExplode(' ', flag, value);
    ParseOptionsSingle(s);
  }

  /** A bare word gains a dash and stays one token. */
  lemma ParseBareWord(word: string)
    requires |word| > 0 && word[0] != '-' && ' ' !in word
    requires word[0] !in DefaultTrimChars && word[|word| - 1] !in DefaultTrimChars
    ensures ParseOptions([word]) == ["-" + word]
  {
    TrimUnique([], word, [], DefaultTrimChars);
    assert [] + word + [] == word;
    ExplodeImplode(' ', "-" + word);
    ParseOptionsSingle(word);
  }

  /** Two options for the same flag are both passed on, in order: with
      `setOptions(["-enc UTF-8"])` then `addOptions(["-enc Latin1"])` the
      tool sees `-enc UTF-8 -enc Latin1`; the later value does not replace
      the earlier one. */
  lemma DuplicateFlagsKept(flag: string, first: string, second: string)
    requires |flag| > 0 && flag[0] == '-' && ' ' !in flag
    requires |first| > 0 && first[|first| - 1] !in DefaultTrimChars
    requires |second| > 0 && second[|second| - 1] !in DefaultTrimChars
    ensures ParseOptions([flag + " " + first]) + ParseOptions([flag + " " + second])
         == [flag, first, flag, second]
  {
    ParseFlagValue(flag, first);
    ParseFlagValue(flag, second);
  }
}
