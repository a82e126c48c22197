/** The name normalisers of the scaffolder: turning a project name into an npm
    package name, checking package-name syntax, and tidying the target directory
    argument (src/index.ts, `toValidPackageName`, `isValidPackageName`,
    `formatTargetDir`). */
module PackageNames {
  import opened JsText

  /** `[a-z\d\-~]`: a character that may start the name segment, and the only
      characters `toValidPackageName` keeps. */
  predicate IsNameLeadChar(c: char)
  {
    ('a' <= c <= 'z') || ('0' <= c <= '9') || c == '-' || c == '~'
  }

  /** `[a-z\d\-._~]`: a character of the rest of the name segment. */
  predicate IsNameRestChar(c: char)
  {
    IsNameLeadChar(c) || c == '.' || c == '_'
  }

  /** `[a-z\d\-*~]`: a character that may start the scope. */
  predicate IsScopeLeadChar(c: char)
  {
    IsNameLeadChar(c) || c == '*'
  }

  /** `[a-z\d\-*._~]`: a character of the rest of the scope. */
  predicate IsScopeRestChar(c: char)
  {
    IsScopeLeadChar(c) || c == '.' || c == '_'
  }

  /** `[a-z\d\-~][a-z\d\-._~]*` matched against the whole of `s`. */
  predicate NameSegment(s: string)
  {
    |s| >= 1 && IsNameLeadChar(s[0]) && forall i :: 1 <= i < |s| ==> IsNameRestChar(s[i])
  }

  /** `[a-z\d\-*~][a-z\d\-*._~]*` matched against the whole of `s`. */
  predicate ScopeSegment(s: string)
  {
    |s| >= 1 && IsScopeLeadChar(s[0]) && forall i :: 1 <= i < |s| ==> IsScopeRestChar(s[i])
  }

  /** `s` is `@scope/name` with the scope ending at the `/` at index `k`. */
  predicate ScopedAt(s: string, k: int)
  {
    1 <= k < |s| && s[0] == '@' && s[k] == '/' && ScopeSegment(s[1..k]) && NameSegment(s[k + 1..])
  }

  /** The anchored regular expression
      `^(?:@[a-z\d\-*~][a-z\d\-*._~]*\/)?[a-z\d\-~][a-z\d\-._~]*$`, read declaratively:
      either a bare name segment, or a scope and a name segment split at some `/`. */
  ghost predicate PackageNamePattern(s: string)
  {
    NameSegment(s) || exists k :: ScopedAt(s, k)
  }

  /** `isValidPackageName`: the optional group is taken exactly when the string starts
      with `@`, since no name segment can start with `@`; the group then ends at the
      first `/`, since no scope character is `/`. */
  function IsValidPackageName(projectName: string): (valid: bool)
    ensures valid ==> projectName != []
    ensures valid ==> (projectName[0] == '@' <==> '/' in projectName)
    ensures valid && projectName[0] != '@' ==> IsNameLeadChar(projectName[0])
  {
    if projectName != [] && projectName[0] == '@' then
      match IndexOfChar(projectName, '/')
      case None => false
      case Some(k) => ScopeSegment(projectName[1..k]) && NameSegment(projectName[k + 1..])
    else
      NameSegment(projectName)
  }

  /** The matcher accepts exactly the strings the regular expression describes. */
  lemma ValidPackageNameIsPattern(s: string)
    ensures IsValidPackageName(s) <==> PackageNamePattern(s)
  {
    if s != [] && s[0] == '@' {
      assert !NameSegment(s);
      match IndexOfChar(s, '/')
      case None =>
        forall k | 1 <= k < |s| ensures !ScopedAt(s, k) {
          assert s[k] != '/';
        }
      case Some(k) =>
        if ScopeSegment(s[1..k]) && NameSegment(s[k + 1..]) {
          assert ScopedAt(s, k);
        }
        assert forall i :: 0 <= i < k ==> s[i] == s[..k][i];
        forall j | ScopedAt(s, j) ensures j == k {
          ScopeHasNoSlash(s[1..j]);
          assert forall i :: 1 <= i < j ==> s[i] == s[1..j][i - 1];
        }
    } else {
      forall k | 1 <= k < |s| ensures !ScopedAt(s, k) {
      }
    }
  }

  lemma ScopeHasNoSlash(s: string)
    requires ScopeSegment(s)
    ensures '/' !in s
  {
    forall i | 0 <= i < |s| ensures s[i] != '/' {
      assert i == 0 || IsScopeRestChar(s[i]);
    }
  }

  lemma NameHasNoSlash(s: string)
    requires NameSegment(s)
    ensures '/' !in s
  {
    forall i | 0 <= i < |s| ensures s[i] != '/' {
      assert i == 0 || IsNameRestChar(s[i]);
    }
  }

  /** What the validator rules out: the empty string, every upper-case letter, and a
      name segment (the whole name, or what follows the scope's `/`) that starts with
      `.` or `_`. */
  lemma ValidPackageNameShape(s: string)
    requires IsValidPackageName(s)
    ensures s != []
    ensures forall i :: 0 <= i < |s| ==> !IsAsciiUpper(s[i])
    ensures s[0] != '.' && s[0] != '_'
    ensures forall k :: 0 <= k < |s| && s[k] == '/' ==> k + 1 < |s| && IsNameLeadChar(s[k + 1])
  {
    ValidPackageNameIsPattern(s);
    if NameSegment(s) {
      forall k | 0 <= k < |s| ensures s[k] != '/' {
        assert k == 0 || IsNameRestChar(s[k]);
      }
    } else {
      var k :| ScopedAt(s, k);
      forall i | 0 <= i < |s| ensures !IsAsciiUpper(s[i]) {
        if 1 <= i < k {
          assert s[i] == s[1..k][i - 1];
        } else if k < i {
          assert s[i] == s[k + 1..][i - k - 1];
        }
      }
      ScopeHasNoSlash(s[1..k]);
      NameHasNoSlash(s[k + 1..]);
      assert forall i :: 1 <= i < k ==> s[i] == s[1..k][i - 1];
      assert forall i :: k < i < |s| ==> s[i] == s[k + 1..][i - k - 1];
      assert s[k + 1] == s[k + 1..][0];
    }
  }

  /** The two character classes that `toValidPackageName` replaces runs of:
      `\s` and `[^a-z\d\-~]`. */
  datatype RunClass = Whitespace | NotNameChar

  predicate InClass(k: RunClass, c: char)
  {
    match k
    case Whitespace => IsSpace(c)
    case NotNameChar => !IsNameLeadChar(c)
  }

  /** Drops the run of class-`k` characters at the start of `s`: only class-`k`
      characters go, and the rest starts with a character outside the class. */
  function DropRun(s: string, k: RunClass): (r: string)
    ensures |r| <= |s| && r == s[|s| - |r|..]
    ensures r == [] || !InClass(k, r[0])
    ensures forall i :: 0 <= i < |s| - |r| ==> InClass(k, s[i])
  {
    if s != [] && InClass(k, s[0]) then
      var r := DropRun(s[1..], k);
      assert forall i :: 0 <= i < |s| - 1 - |r| ==> s[1..][i] == s[i + 1];
      r
    else s
  }

  /** The characters of `s` that a run replacement over class `k` never touches
      (neither in the class nor `-`), in order. */
  function Kept(s: string, k: RunClass): string
  {
    if s == [] then []
    else (if InClass(k, s[0]) || s[0] == '-' then [] else [s[0]]) + Kept(s[1..], k)
  }

  /** Dropping a run of class characters leaves the kept characters as they were. */
  lemma {:induction false} KeptDropRun(s: string, k: RunClass)
    ensures Kept(DropRun(s, k), k) == Kept(s, k)
    decreases |s|
  {
    if s != [] && InClass(k, s[0]) {
      KeptDropRun(s[1..], k);
    }
  }

  /** `s.replace(/<class>+/g, "-")`: every maximal run of class-`k` characters becomes
      one `-`; every other character is kept. */
  function ReplaceRuns(s: string, k: RunClass): (r: string)
    ensures forall i :: 0 <= i < |r| ==> r[i] == '-' || !InClass(k, r[i])
    ensures |r| <= |s|
    ensures s == [] ==> r == []
    ensures s != [] ==> r != [] && r[0] == (if InClass(k, s[0]) then '-' else s[0])
    ensures |r| == 1 ==> |s| == 1 || InClass(k, s[0])
    decreases |s|
  {
    if s == [] then []
    else if InClass(k, s[0]) then
      var t := ReplaceRuns(DropRun(s[1..], k), k);
      PrependDashOrOutside('-', t, k);
      ['-'] + t
    else
      var t := ReplaceRuns(s[1..], k);
      PrependDashOrOutside(s[0], t, k);
      [s[0]] + t
  }

  /** Putting `-` or a character outside the class in front of a string made of such
      characters gives another one. */
  lemma PrependDashOrOutside(c: char, t: string, k: RunClass)
    requires c == '-' || !InClass(k, c)
    requires forall i :: 0 <= i < |t| ==> t[i] == '-' || !InClass(k, t[i])
    ensures forall i :: 0 <= i < |[c] + t| ==> ([c] + t)[i] == '-' || !InClass(k, ([c] + t)[i])
  {
  }

  /** A string without class-`k` characters has no run to replace. */
  lemma {:induction false} ReplaceRunsNoClass(s: string, k: RunClass)
    requires forall i :: 0 <= i < |s| ==> !InClass(k, s[i])
    ensures ReplaceRuns(s, k) == s
    decreases |s|
  {
    if s != [] {
      assert forall i :: 0 <= i < |s| - 1 ==> s[1..][i] == s[i + 1];
      ReplaceRunsNoClass(s[1..], k);
      assert s == [s[0]] + s[1..];
    }
  }

  /** Replacing runs keeps every character that is neither in the class nor `-`,
      in the same order. */
  lemma {:induction false} ReplaceRunsKeeps(s: string, k: RunClass)
    ensures Kept(ReplaceRuns(s, k), k) == Kept(s, k)
    decreases |s|
  {
    if s != [] {
      var r := ReplaceRuns(s, k);
      if InClass(k, s[0]) {
        var rest := DropRun(s[1..], k);
        ReplaceRunsKeeps(rest, k);
        KeptDropRun(s[1..], k);
        assert r[1..] == ReplaceRuns(rest, k);
      } else {
        ReplaceRunsKeeps(s[1..], k);
        assert r[1..] == ReplaceRuns(s[1..], k);
      }
    }
  }

  /** Text without class characters passes through a run replacement unchanged, so the
      replacement of `p + q` is `p` followed by the replacement of `q`. */
  lemma {:induction false} ReplaceRunsPrefix(p: string, q: string, k: RunClass)
    requires forall i :: 0 <= i < |p| ==> !InClass(k, p[i])
    ensures ReplaceRuns(p + q, k) == p + ReplaceRuns(q, k)
    decreases |p|
  {
    if p != [] {
      var s := p + q;
      var t := p[1..];
      assert s[0] == p[0] && s[1..] == t + q;
      ReplaceRunsKept(s, k);
      assert forall i :: 0 <= i < |t| ==> !InClass(k, t[i]) by {
        assert forall i :: 0 <= i < |t| ==> t[i] == p[i + 1];
      }
      ReplaceRunsPrefix(t, q, k);
      AppendAssoc([p[0]], t, ReplaceRuns(q, k));
      assert p == [p[0]] + t;
    } else {
      assert p + q == q;
    }
  }

  /** A first character outside the class is kept as it is. */
  lemma ReplaceRunsKept(s: string, k: RunClass)
    requires s != [] && !InClass(k, s[0])
    ensures ReplaceRuns(s, k) == [s[0]] + ReplaceRuns(s[1..], k)
  {
  }

  /** A maximal run of class characters, followed by `q`, becomes one `-` followed by
      the replacement of `q`. */
  lemma ReplaceRunsRun(run: string, q: string, k: RunClass)
    requires run != [] && forall i :: 0 <= i < |run| ==> InClass(k, run[i])
    requires q == [] || !InClass(k, q[0])
    ensures ReplaceRuns(run + q, k) == "-" + ReplaceRuns(q, k)
  {
    ReplaceRunsDash(run + q, k);
    DropRunAll(run, q, k);
  }

  /** A first character in the class starts a run that becomes one `-`. */
  lemma ReplaceRunsDash(s: string, k: RunClass)
    requires s != [] && InClass(k, s[0])
    ensures ReplaceRuns(s, k) == "-" + ReplaceRuns(DropRun(s[1..], k), k)
  {
  }

  /** Past the first character of `run + q`, dropping the run leaves exactly `q` when
      `run` is all in the class and `q` does not start in it. */
  lemma DropRunAll(run: string, q: string, k: RunClass)
    requires run != [] && forall i :: 0 <= i < |run| ==> InClass(k, run[i])
    requires q == [] || !InClass(k, q[0])
    ensures DropRun((run + q)[1..], k) == q
  {
    var t := (run + q)[1..];
    var r := DropRun(t, k);
    assert |r| == |q| by {
      assert forall i :: 0 <= i < |run| - 1 ==> t[i] == run[i + 1];
      assert q != [] ==> t[|run| - 1] == q[0];
    }
    assert r == t[|run| - 1..];
  }

  /** `.replace(/^[._]/, "")`: at most one character goes, and it goes exactly when the
      input starts with `.` or `_`. */
  function DropLeadingDotOrUnderscore(s: string): (r: string)
    ensures |r| <= |s| && r == s[|s| - |r|..]
    ensures |s| - |r| <= 1
    ensures |r| < |s| <==> s != [] && (s[0] == '.' || s[0] == '_')
  {
    if s != [] && (s[0] == '.' || s[0] == '_') then s[1..] else s
  }

  /** `toValidPackageName`: trim, lower-case, each whitespace run to `-`, drop one
      leading `.` or `_`, each run of characters outside `[a-z\d\-~]` to `-`.
      Every character of the result is one of `[a-z\d\-~]`. */
  function ToValidPackageName(projectName: string): (r: string)
    ensures forall i :: 0 <= i < |r| ==> IsNameLeadChar(r[i])
  {
    var dashed := ReplaceRuns(ToLower(Trim(projectName)), Whitespace);
    ReplaceRuns(DropLeadingDotOrUnderscore(dashed), NotNameChar)
  }

  /** The normaliser's round trip: whenever its output is not empty, the validator
      accepts it. */
  lemma ToValidPackageNameIsValid(projectName: string)
    ensures ToValidPackageName(projectName) != [] ==> IsValidPackageName(ToValidPackageName(projectName))
  {
    var r := ToValidPackageName(projectName);
    if r != [] {
      assert r[0] != '@';
      assert NameSegment(r) by {
        forall i | 1 <= i < |r| ensures IsNameRestChar(r[i]) {
          assert IsNameLeadChar(r[i]);
        }
      }
    }
  }

  /** The normaliser's output is empty exactly when the trimmed input is blank, `.` or `_`;
      those are the inputs for which the round trip above gives nothing. */
  lemma ToValidPackageNameEmpty(projectName: string)
    ensures ToValidPackageName(projectName) == [] <==> Trim(projectName) in {"", ".", "_"}
  {
    var t := Trim(projectName);
    var undotted := DropLeadingDotOrUnderscore(ReplaceRuns(ToLower(t), Whitespace));
    assert ToValidPackageName(projectName) == ReplaceRuns(undotted, NotNameChar);
    if t == [] {
      assert ToLower(t) == [];
    } else if t == "." || t == "_" {
      DotOnly(t);
    } else {
      assert !IsSpace(t[0]);
      LoweredHead(t);
      UndottedNonEmpty(ToLower(t));
    }
  }

  /** A lone `.` or `_` is dropped whole. */
  lemma DotOnly(t: string)
    requires t == "." || t == "_"
    ensures DropLeadingDotOrUnderscore(ReplaceRuns(ToLower(t), Whitespace)) == []
  {
    assert ToLower(t) == t;
    assert |ReplaceRuns(t, Whitespace)| == 1;
  }

  /** Lower-casing a string that does not start with whitespace and is not `.` or `_`
      keeps its first character out of whitespace, `.` and `_`, or keeps it long. */
  lemma LoweredHead(t: string)
    requires t != [] && !IsSpace(t[0]) && t != "." && t != "_"
    ensures var lowered := ToLower(t);
            && lowered != [] && !IsSpace(lowered[0])
            && (|lowered| >= 2 || (lowered[0] != '.' && lowered[0] != '_'))
  {
    if |t| == 1 {
      assert t[0] != '.' && t[0] != '_' by {
        assert t == [t[0]];
      }
    }
  }

  /** A string that does not start with whitespace keeps a character once its whitespace
      runs are dashed and one leading `.` or `_` is dropped, unless it is that one
      character alone. */
  lemma UndottedNonEmpty(lowered: string)
    requires lowered != [] && !IsSpace(lowered[0])
    requires |lowered| >= 2 || (lowered[0] != '.' && lowered[0] != '_')
    ensures DropLeadingDotOrUnderscore(ReplaceRuns(lowered, Whitespace)) != []
  {
    assert !InClass(Whitespace, lowered[0]);
    ReplaceRunsHead(lowered, Whitespace);
  }

  /** A string that starts outside the class keeps its first character, and a second
      one when it has one. */
  lemma ReplaceRunsHead(s: string, k: RunClass)
    requires s != [] && !InClass(k, s[0])
    ensures var r := ReplaceRuns(s, k);
            && r != [] && r[0] == s[0]
            && (|s| >= 2 ==> |r| >= 2)
  {
    var rest := ReplaceRuns(s[1..], k);
    assert ReplaceRuns(s, k) == [s[0]] + rest;
    assert |s| >= 2 ==> rest != [];
  }

  /** `.replace(/\/+$/g, "")`: drops the whole run of `/` at the end. */
  function DropTrailingSlashes(s: string): (r: string)
    ensures StartsWith(s, r)
    ensures r == [] || r[|r| - 1] != '/'
    ensures forall i :: |r| <= i < |s| ==> s[i] == '/'
  {
    if s != [] && s[|s| - 1] == '/' then DropTrailingSlashes(s[..|s| - 1]) else s
  }

  /** `formatTargetDir`: `undefined` stays `undefined`; otherwise the result is the
      trimmed input without its trailing run of `/`: a prefix of the trimmed input,
      not ending in `/`, with only `/` cut off. */
  function FormatTargetDir(targetDir: Option<string>): (r: Option<string>)
    ensures r.None? <==> targetDir.None?
    ensures targetDir.Some? ==>
              var t := Trim(targetDir.value);
              && StartsWith(t, r.value)
              && (r.value == [] || r.value[|r.value| - 1] != '/')
              && forall i :: |r.value| <= i < |t| ==> t[i] == '/'
  {
    match targetDir
    case None => None
    case Some(dir) => Some(DropTrailingSlashes(Trim(dir)))
  }

  /** Trimming a string that neither starts nor ends with whitespace changes nothing. */
  lemma TrimUnchanged(s: string)
    requires s == [] || (!IsSpace(s[0]) && !IsSpace(s[|s| - 1]))
    ensures Trim(s) == s
  {
  }

  /** Formatting again changes nothing unless the first result ends in whitespace
      (`"a /"` gives `"a "`, which formats to `"a"`). */
  lemma FormatTargetDirIdempotent(targetDir: string)
    requires var r := FormatTargetDir(Some(targetDir)).value; r == [] || !IsSpace(r[|r| - 1])
    ensures FormatTargetDir(FormatTargetDir(Some(targetDir))) == FormatTargetDir(Some(targetDir))
  {
    var t := Trim(targetDir);
    var r := FormatTargetDir(Some(targetDir)).value;
    if r != [] {
      assert r[0] == t[0];
    }
    TrimUnchanged(r);
  }

  /** The documented examples: a single trailing `/` goes ... */
  lemma FormatTargetDirOneSlash()
    ensures FormatTargetDir(Some("foo/")) == Some("foo")
  {
    TrimFooSlash();
    DropFooSlash();
  }

  lemma TrimFooSlash()
    ensures Trim("foo/") == "foo/"
  {
    TrimUnchanged("foo/");
  }

  lemma DropFooSlash()
    ensures DropTrailingSlashes("foo/") == "foo"
  {
    assert "foo/"[..3] == "foo";
    assert DropTrailingSlashes("foo") == "foo";
  }

  /** ... and so does a whole run of them. */
  lemma FormatTargetDirManySlashes()
    ensures FormatTargetDir(Some("foo///")) == Some("foo")
  {
    var t := "foo///";
    assert Trim(t) == t by { TrimUnchanged(t); }
    assert DropTrailingSlashes(t) == "foo" by {
      assert t[..5] == "foo//" && "foo//"[..4] == "foo/" && "foo/"[..3] == "foo";
      assert DropTrailingSlashes("foo") == "foo";
    }
  }

  /** The input that shows formatting is not idempotent: `"a /"` gives `"a "`,
      which formats to `"a"`. */
  lemma FormatTargetDirNotIdempotent()
    ensures FormatTargetDir(Some("a /")) == Some("a ")
    ensures FormatTargetDir(Some("a ")) == Some("a")
  {
    TrimUnchanged("a /");
    assert DropTrailingSlashes("a /") == DropTrailingSlashes("a ") == "a ";
    assert TrimEnd("a ") == TrimEnd("a") == "a";
    assert TrimStart("a ") == "a ";
    assert DropTrailingSlashes("a") == "a";
  }
}
