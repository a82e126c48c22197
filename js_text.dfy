/** Models of the JavaScript values and string built-ins the scaffolder relies on:
    `undefined`, truthiness, `startsWith`, `indexOf`/`includes`, `replace` with a
    string pattern, `split` on one character, `trim` and `toLowerCase`. */
module JsText {

  /** An optional value: `None` stands for JavaScript's `undefined`. */
  datatype Option<+T> = None | Some(value: T)

  /** Truthiness of a value of type `string | undefined`: `undefined` and `""` are falsy. */
  predicate Truthy(s: Option<string>)
  {
    s.Some? && s.value != ""
  }

  /** No element appears twice, as in a directory listing or a list of names. */
  predicate Distinct<T(==)>(s: seq<T>)
  {
    forall i, j :: 0 <= i < j < |s| ==> s[i] != s[j]
  }

  /** Concatenation is associative. */
  lemma AppendAssoc<T>(a: seq<T>, b: seq<T>, c: seq<T>)
    ensures (a + b) + c == a + (b + c)
  {
  }

  predicate StartsWith(s: string, prefix: string)
  {
    |prefix| <= |s| && s[..|prefix|] == prefix
  }

  /** `pat` occurs in `s` starting at index `k`. */
  predicate OccursAt(s: string, pat: string, k: int)
  {
    0 <= k && k + |pat| <= |s| && s[k..k + |pat|] == pat
  }

  /** `s.includes(pat)` */
  predicate Contains(s: string, pat: string)
    decreases |s|
  {
    StartsWith(s, pat) || (s != [] && Contains(s[1..], pat))
  }

  /** `s.replace(pat, rep)` for a string `pat` and a replacement that is inserted
      verbatim (a callback, or a string without `$`): the leftmost occurrence is
      replaced and nothing else changes. */
  function ReplaceFirst(s: string, pat: string, rep: string): (r: string)
    ensures !Contains(s, pat) ==> r == s
    decreases |s|
  {
    if StartsWith(s, pat) then rep + s[|pat|..]
    else if s == [] then []
    else [s[0]] + ReplaceFirst(s[1..], pat, rep)
  }

  /** `s.indexOf(pat)`, with `None` for `-1`: the leftmost index at which `pat` occurs. */
  function IndexOf(s: string, pat: string): (r: Option<nat>)
    ensures r.None? <==> !Contains(s, pat)
    ensures r.Some? ==> OccursAt(s, pat, r.value)
    decreases |s|
  {
    if StartsWith(s, pat) then Some(0)
    else if s == [] then None
    else match IndexOf(s[1..], pat)
      case None => None
      case Some(k) => assert s[1..][k..k + |pat|] == s[k + 1..k + 1 + |pat|]; Some(k + 1)
  }

  /** An occurrence of `pat` puts its first character in `s`. */
  lemma ContainsFirstChar(s: string, pat: string)
    requires |pat| > 0
    ensures Contains(s, pat) ==> pat[0] in s
  {
    if Contains(s, pat) {
      var k := IndexOf(s, pat).value;
      assert s[k] == s[k..k + |pat|][0];
    }
  }

  /** No occurrence starts before the index `indexOf` reports. */
  lemma {:induction false} IndexOfFirst(s: string, pat: string, j: nat)
    requires IndexOf(s, pat).Some? && j < IndexOf(s, pat).value
    ensures !OccursAt(s, pat, j)
    decreases |s|
  {
    if j > 0 {
      IndexOfFirst(s[1..], pat, j - 1);
      if j + |pat| <= |s| {
        assert s[1..][j - 1..j - 1 + |pat|] == s[j..j + |pat|];
      }
    }
  }

  /** `replace` rewrites the occurrence `indexOf` reports and keeps the text around it. */
  lemma ReplaceFirstAtIndexOf(s: string, pat: string, rep: string)
    requires IndexOf(s, pat).Some?
    ensures var k := IndexOf(s, pat).value;
            ReplaceFirst(s, pat, rep) == s[..k] + rep + s[k + |pat|..]
  {
    var k := IndexOf(s, pat).value;
    forall j | 0 <= j < k ensures !OccursAt(s, pat, j) {
      IndexOfFirst(s, pat, j);
    }
    ReplaceFirstAt(s, pat, rep, k);
  }

  /** A string that starts with the pattern has its head replaced. */
  lemma ReplaceFirstHead(pat: string, s: string, rep: string)
    ensures ReplaceFirst(pat + s, pat, rep) == rep + s
  {
    assert (pat + s)[..|pat|] == pat && (pat + s)[|pat|..] == s;
  }

  /** An occurrence in the tail is an occurrence one place on. */
  lemma OccursShift(s: string, pat: string, j: nat)
    requires s != []
    ensures OccursAt(s[1..], pat, j) <==> OccursAt(s, pat, j + 1)
  {
    if j + |pat| <= |s| - 1 {
      assert s[1..][j..j + |pat|] == s[j + 1..j + 1 + |pat|];
    }
  }

  /** `ReplaceFirst` replaces the leftmost occurrence: when `pat` occurs at `k` and at
      no earlier index, the result is `s` with `s[k..k + |pat|]` replaced by `rep`. */
  lemma {:induction false} ReplaceFirstAt(s: string, pat: string, rep: string, k: nat)
    requires OccursAt(s, pat, k)
    requires forall j :: 0 <= j < k ==> !OccursAt(s, pat, j)
    ensures ReplaceFirst(s, pat, rep) == s[..k] + rep + s[k + |pat|..]
    decreases k
  {
    if k == 0 {
      assert StartsWith(s, pat);
    } else {
      var t := s[1..];
      ReplaceFirstStep(s, pat, rep);
      forall j | 0 <= j < k - 1 ensures !OccursAt(t, pat, j) {
        OccursShift(s, pat, j);
      }
      OccursShift(s, pat, k - 1);
      ReplaceFirstAt(t, pat, rep, k - 1);
      SliceStep(s, k, k + |pat|);
      ConsAssoc(s[0], t[..k - 1], rep, t[k - 1 + |pat|..]);
    }
  }

  /** Putting a character in front of a three-part string. */
  lemma ConsAssoc(c: char, a: string, b: string, d: string)
    ensures [c] + (a + b + d) == ([c] + a) + b + d
  {
  }

  /** Without an occurrence at the start, the first character is kept and the search
      goes on in the rest. */
  lemma ReplaceFirstStep(s: string, pat: string, rep: string)
    requires s != [] && !OccursAt(s, pat, 0)
    ensures ReplaceFirst(s, pat, rep) == [s[0]] + ReplaceFirst(s[1..], pat, rep)
  {
    assert !StartsWith(s, pat) by {
      if |pat| <= |s| {
        assert s[0..|pat|] == s[..|pat|];
      }
    }
  }

  /** Slices of `s` as slices of its tail. */
  lemma SliceStep(s: string, k: nat, m: nat)
    requires 0 < k <= m <= |s|
    ensures s[..k] == [s[0]] + s[1..][..k - 1]
    ensures s[m..] == s[1..][m - 1..]
  {
  }

  /** Replacing the first occurrence commutes with prepending a prefix that does not
      contain the pattern's first character. */
  lemma {:induction false} ReplaceFirstShift(p: string, s: string, pat: string, rep: string)
    requires |pat| > 0 && pat[0] !in p
    ensures ReplaceFirst(p + s, pat, rep) == p + ReplaceFirst(s, pat, rep)
    decreases |p|
  {
    if p != [] {
      assert !StartsWith(p + s, pat) by {
        assert (p + s)[0] == p[0];
      }
      assert (p + s)[1..] == p[1..] + s;
      ReplaceFirstShift(p[1..], s, pat, rep);
      calc {
        ReplaceFirst(p + s, pat, rep);
        [p[0]] + ReplaceFirst(p[1..] + s, pat, rep);
        [p[0]] + (p[1..] + ReplaceFirst(s, pat, rep));
        { assert [p[0]] + p[1..] == p; }
        p + ReplaceFirst(s, pat, rep);
      }
    } else {
      assert p + s == s;
    }
  }

  /** Prepending a prefix that does not contain the pattern's first character neither
      creates nor hides an occurrence. */
  lemma {:induction false} ContainsShift(p: string, s: string, pat: string)
    requires |pat| > 0 && pat[0] !in p
    ensures Contains(p + s, pat) <==> Contains(s, pat)
    decreases |p|
  {
    if p != [] {
      assert !StartsWith(p + s, pat) by {
        assert (p + s)[0] == p[0];
      }
      assert (p + s)[1..] == p[1..] + s;
      ContainsShift(p[1..], s, pat);
    } else {
      assert p + s == s;
    }
  }

  /** Replacing an occurrence by itself leaves the string as it was. */
  lemma {:induction false} ReplaceFirstSelf(s: string, pat: string)
    ensures ReplaceFirst(s, pat, pat) == s
    decreases |s|
  {
    if StartsWith(s, pat) {
      assert s == s[..|pat|] + s[|pat|..];
    } else if s != [] {
      ReplaceFirstSelf(s[1..], pat);
      assert s == [s[0]] + s[1..];
    }
  }

  /** The first index at which the character `c` occurs. */
  function IndexOfChar(s: string, c: char): (r: Option<nat>)
    ensures r.Some? ==> r.value < |s| && s[r.value] == c && c !in s[..r.value]
    ensures r.None? <==> c !in s
  {
    if s == [] then None
    else if s[0] == c then Some(0)
    else match IndexOfChar(s[1..], c)
      case None => None
      case Some(k) => assert s[..k + 1] == [s[0]] + s[1..][..k]; Some(k + 1)
  }

  /** `s.split(sep)` for a one-character separator: the pieces between separators, in order. */
  function Split(s: string, sep: char): (parts: seq<string>)
    ensures |parts| >= 1
    ensures forall i :: 0 <= i < |parts| ==> sep !in parts[i]
    ensures forall i, c :: 0 <= i < |parts| && c in parts[i] ==> c in s
    decreases |s|
  {
    match IndexOfChar(s, sep)
    case None => [s]
    case Some(k) =>
      assert forall c :: c in s[..k] ==> c in s;
      assert forall c :: c in s[k + 1..] ==> c in s;
      [s[..k]] + Split(s[k + 1..], sep)
  }

  /** `parts.join(sep)` */
  function Join(parts: seq<string>, sep: char): string
  {
    if |parts| == 0 then ""
    else if |parts| == 1 then parts[0]
    else parts[0] + [sep] + Join(parts[1..], sep)
  }

  /** Joining a piece in front of at least one other piece puts a separator between. */
  lemma JoinCons(p: string, rest: seq<string>, sep: char)
    requires |rest| >= 1
    ensures Join([p] + rest, sep) == p + [sep] + Join(rest, sep)
  {
    assert ([p] + rest)[0] == p && ([p] + rest)[1..] == rest;
  }

  /** Splitting and joining again gives back the original string. */
  lemma {:induction false} SplitJoin(s: string, sep: char)
    ensures Join(Split(s, sep), sep) == s
    decreases |s|
  {
    var r := IndexOfChar(s, sep);
    if r.None? {
      assert Split(s, sep) == [s];
    } else {
      var k := r.value;
      var rest := Split(s[k + 1..], sep);
      assert Split(s, sep) == [s[..k]] + rest;
      SplitJoin(s[k + 1..], sep);
      JoinCons(s[..k], rest, sep);
      assert s == s[..k] + [sep] + s[k + 1..];
    }
  }

  /** The first two pieces of a split: without a separator the only piece is the whole
      string; otherwise the string starts with the first piece and a separator, and the
      second piece is the first piece of what follows. */
  lemma SplitHead(s: string, sep: char)
    ensures sep !in s ==> Split(s, sep) == [s]
    ensures sep in s ==> var parts := Split(s, sep);
              |parts| >= 2 && StartsWith(s, parts[0] + [sep])
              && parts[1] == Split(s[|parts[0]| + 1..], sep)[0]
  {
    match IndexOfChar(s, sep)
    case None =>
    case Some(k) =>
      var rest := Split(s[k + 1..], sep);
      assert Split(s, sep) == [s[..k]] + rest;
      assert ([s[..k]] + rest)[1] == rest[0];
      assert s[..k + 1] == s[..k] + [sep];
  }

  /** The first piece of a split is a prefix of the string, followed by the separator
      or by the end of the string. */
  lemma SplitFirst(s: string, sep: char)
    ensures var p := Split(s, sep)[0];
            StartsWith(s, p) && (|p| == |s| || s[|p|] == sep)
  {
    SplitHead(s, sep);
    var p := Split(s, sep)[0];
    if sep in s {
      assert s[..|p| + 1][|p|] == sep;
    }
  }

  /** Whitespace as JavaScript's `trim` and the regular-expression class `\s` see it:
      the line terminators and every Unicode space separator, plus tab, vertical tab,
      form feed and the byte-order mark. */
  predicate IsSpace(c: char)
  {
    || c == ' ' || c == '\t' || c == '\n' || c == '\r'
    || c == '\U{000B}' || c == '\U{000C}'
    || c == '\U{00A0}' || c == '\U{1680}'
    || ('\U{2000}' <= c <= '\U{200A}')
    || c == '\U{2028}' || c == '\U{2029}' || c == '\U{202F}' || c == '\U{205F}'
    || c == '\U{3000}' || c == '\U{FEFF}'
  }

  /** Drops the leading whitespace. */
  function TrimStart(s: string): (r: string)
    ensures |r| <= |s| && r == s[|s| - |r|..]
    ensures r == [] || !IsSpace(r[0])
    ensures forall i :: 0 <= i < |s| - |r| ==> IsSpace(s[i])
  {
    if s != [] && IsSpace(s[0]) then
      var r := TrimStart(s[1..]);
      assert s[1..][|s| - 1 - |r|..] == s[|s| - |r|..];
      assert forall i :: 0 <= i < |s| - 1 - |r| ==> s[1..][i] == s[i + 1];
      r
    else s
  }

  /** Drops the trailing whitespace. */
  function TrimEnd(s: string): (r: string)
    ensures |r| <= |s| && r == s[..|r|]
    ensures r == [] || !IsSpace(r[|r| - 1])
    ensures forall i :: |r| <= i < |s| ==> IsSpace(s[i])
  {
    if s != [] && IsSpace(s[|s| - 1]) then TrimEnd(s[..|s| - 1]) else s
  }

  /** `s.trim()`: the input with its leading and trailing whitespace cut, and nothing else. */
  function Trim(s: string): (r: string)
    ensures r == [] || (!IsSpace(r[0]) && !IsSpace(r[|r| - 1]))
    ensures |r| <= |s|
    ensures SpaceAround(s, |s| - |TrimStart(s)|, r)
  {
    MiddlePiece(s, TrimStart(s), TrimEnd(TrimStart(s)));
    TrimEnd(TrimStart(s))
  }

  /** `r` is the piece of `s` that starts at index `i`, and everything in `s` before and
      after that piece is whitespace. */
  predicate SpaceAround(s: string, i: int, r: string)
  {
    && 0 <= i && i + |r| <= |s| && r == s[i..i + |r|]
    && (forall j :: 0 <= j < i ==> IsSpace(s[j]))
    && (forall j :: i + |r| <= j < |s| ==> IsSpace(s[j]))
  }

  /** Cutting only whitespace from the front of `s`, giving `t`, and then only whitespace
      from the back of `t`, giving `r`, leaves a middle piece of `s` with only whitespace
      on either side. */
  lemma MiddlePiece(s: string, t: string, r: string)
    requires |t| <= |s| && t == s[|s| - |t|..]
    requires t == [] || !IsSpace(t[0])
    requires forall j :: 0 <= j < |s| - |t| ==> IsSpace(s[j])
    requires |r| <= |t| && r == t[..|r|]
    requires r == [] || !IsSpace(r[|r| - 1])
    requires forall j :: |r| <= j < |t| ==> IsSpace(t[j])
    ensures r == [] || (!IsSpace(r[0]) && !IsSpace(r[|r| - 1]))
    ensures |r| <= |s|
    ensures SpaceAround(s, |s| - |t|, r)
  {
    var i := |s| - |t|;
    assert s[i..][..|r|] == s[i..i + |r|];
    forall j | i + |r| <= j < |s| ensures IsSpace(s[j]) {
      assert s[j] == t[j - i];
    }
  }

  predicate IsAsciiUpper(c: char)
  {
    'A' <= c <= 'Z'
  }

  function LowerChar(c: char): char
  {
    if IsAsciiUpper(c) then (c as int + 32) as char else c
  }

  /** `s.toLowerCase()` on ASCII letters; every other character is left as it is. */
  function ToLower(s: string): (r: string)
    ensures |r| == |s|
    ensures forall i :: 0 <= i < |r| ==> !IsAsciiUpper(r[i])
    ensures forall i :: 0 <= i < |r| ==> (IsSpace(r[i]) <==> IsSpace(s[i]))
    ensures forall i :: 0 <= i < |r| && !IsAsciiUpper(s[i]) ==> r[i] == s[i]
    ensures forall i :: 0 <= i < |r| && IsAsciiUpper(s[i]) ==> r[i] as int == s[i] as int + 32
  {
    seq(|s|, i requires 0 <= i < |s| => LowerChar(s[i]))
  }

  /** The replacement-string patterns of `String.prototype.replace` for a match with no
      capture groups: `$$` is `$`, `$&` the match, `` $` `` the text before it, `$'` the
      text after it; any other `$` stands for itself. */
  function Substitute(rep: string, before: string, matched: string, after: string): (r: string)
    ensures '$' !in rep ==> r == rep
    decreases |rep|
  {
    if |rep| >= 2 && rep[0] == '$' && rep[1] == '$' then "$" + Substitute(rep[2..], before, matched, after)
    else if |rep| >= 2 && rep[0] == '$' && rep[1] == '&' then matched + Substitute(rep[2..], before, matched, after)
    else if |rep| >= 2 && rep[0] == '$' && rep[1] == '`' then before + Substitute(rep[2..], before, matched, after)
    else if |rep| >= 2 && rep[0] == '$' && rep[1] == '\'' then after + Substitute(rep[2..], before, matched, after)
    else if rep == [] then []
    else [rep[0]] + Substitute(rep[1..], before, matched, after)
  }
}
