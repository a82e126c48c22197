/** Package-manager detection from `npm_config_user_agent` (src/index.ts:356-358,
    398-408) and the rewrite of a template's custom command for that package manager
    (src/index.ts:374-389). */
module PackageManager {
  import opened JsText

  /** `{ name: pkgSpecArr[0], version: pkgSpecArr[1] }`; an absent second field is `None`. */
  datatype PkgInfo = PkgInfo(name: string, version: Option<string>)

  /** `pkgFromUserAgent(userAgent)`: `undefined` for a falsy agent; otherwise the first
      two `/`-separated fields of the first space-separated token. */
  function PkgFromUserAgent(userAgent: Option<string>): (info: Option<PkgInfo>)
    ensures info.None? <==> !Truthy(userAgent)
    ensures info.Some? ==> ' ' !in info.value.name && '/' !in info.value.name
    ensures info.Some? && info.value.version.Some? ==>
              ' ' !in info.value.version.value && '/' !in info.value.version.value
  {
    if !Truthy(userAgent) then None
    else
      var pkgSpec := Split(userAgent.value, ' ')[0];
      var pkgSpecArr := Split(pkgSpec, '/');
      Some(PkgInfo(pkgSpecArr[0], if |pkgSpecArr| >= 2 then Some(pkgSpecArr[1]) else None))
  }

  /** The characters that end a field of the agent: the space that ends the first token
      and the `/` that separates the fields within it. */
  predicate IsSep(c: char)
  {
    c == ' ' || c == '/'
  }

  /** Of two prefixes of `s`, one free of separators and one ended by a separator (or by
      the end of `s`), the second extends the first. */
  lemma TokenExtends(s: string, p: string, q: string)
    requires StartsWith(s, p) && StartsWith(s, q)
    requires forall i :: 0 <= i < |q| ==> !IsSep(s[i])
    requires |p| == |s| || IsSep(s[|p|])
    ensures StartsWith(p, q)
  {
    assert |q| <= |p|;
    assert p[..|q|] == s[..|q|];
  }

  /** The first token of the agent: a prefix with no space, ended by a space or by the
      end of the agent. */
  lemma {:induction false} FirstToken(userAgent: string)
    ensures var token := Split(userAgent, ' ')[0];
            && StartsWith(userAgent, token) && ' ' !in token
            && (|token| == |userAgent| || userAgent[|token|] == ' ')
  {
    SplitFirst(userAgent, ' ');
  }

  /** The name is the longest prefix of the agent without a space or a `/`; the version
      is present exactly when a `/` follows it. */
  lemma {:induction false} NameField(userAgent: string)
    requires userAgent != ""
    ensures var info := PkgFromUserAgent(Some(userAgent)).value;
            var n := |info.name|;
            && StartsWith(userAgent, info.name)
            && (n == |userAgent| || IsSep(userAgent[n]))
            && (info.version.Some? <==> n < |userAgent| && userAgent[n] == '/')
  {
    var token := Split(userAgent, ' ')[0];
    var parts := Split(token, '/');
    var name := parts[0];
    FirstToken(userAgent);
    SplitFirst(token, '/');
    SplitHead(token, '/');
    assert userAgent[..|name|] == token[..|name|] by {
      assert userAgent[..|token|] == token;
    }
    if |name| < |token| {
      assert userAgent[|name|] == token[|name|];
    } else {
      assert '/' !in token;
    }
  }

  /** What follows the name's `/` in the first token is a prefix of what follows it in
      the agent, and runs to the end of the token. */
  lemma {:induction false} TokenTail(userAgent: string)
    requires '/' in Split(userAgent, ' ')[0]
    ensures var token := Split(userAgent, ' ')[0];
            var name := Split(token, '/')[0];
            var tail := token[|name| + 1..];
            && |name| + 1 + |tail| == |token|
            && StartsWith(userAgent[|name| + 1..], tail)
            && Split(token, '/')[1] == Split(tail, '/')[0]
  {
    var token := Split(userAgent, ' ')[0];
    var name := Split(token, '/')[0];
    FirstToken(userAgent);
    SplitHead(token, '/');
    var tail := token[|name| + 1..];
    assert userAgent[..|token|] == token;
    assert userAgent[|name| + 1..][..|tail|] == userAgent[..|token|][|name| + 1..];
  }

  /** The version is the longest separator-free prefix of what follows the name's `/`. */
  lemma {:induction false} VersionField(userAgent: string)
    requires userAgent != ""
    requires PkgFromUserAgent(Some(userAgent)).value.version.Some?
    ensures var info := PkgFromUserAgent(Some(userAgent)).value;
            var rest := userAgent[|info.name| + 1..];
            var v := info.version.value;
            && StartsWith(rest, v)
            && (|v| == |rest| || IsSep(rest[|v|]))
  {
    var name, tail := VersionParts(userAgent);
    var rest := userAgent[|name| + 1..];
    FieldOfPrefix(rest, tail, Split(tail, '/')[0]);
  }

  /** The pieces of the agent the version is cut from: the name, and what follows its
      `/` up to the end of the first token. */
  lemma {:induction false} VersionParts(userAgent: string) returns (name: string, tail: string)
    requires userAgent != ""
    requires PkgFromUserAgent(Some(userAgent)).value.version.Some?
    ensures |name| + 1 <= |userAgent|
    ensures PkgFromUserAgent(Some(userAgent)).value == PkgInfo(name, Some(Split(tail, '/')[0]))
    ensures var rest := userAgent[|name| + 1..];
            StartsWith(rest, tail) && (|tail| == |rest| || IsSep(rest[|tail|]))
    ensures var v := Split(tail, '/')[0];
            StartsWith(tail, v) && (|v| == |tail| || tail[|v|] == '/')
  {
    var token := Split(userAgent, ' ')[0];
    name := Split(token, '/')[0];
    assert '/' in token && |name| + 1 <= |token| by {
      SplitHead(token, '/');
    }
    tail := token[|name| + 1..];
    var rest := userAgent[|name| + 1..];
    assert StartsWith(rest, tail) && |name| + 1 + |tail| == |token| && |token| <= |userAgent| by {
      TokenTail(userAgent);
      FirstToken(userAgent);
    }
    assert PkgFromUserAgent(Some(userAgent)).value == PkgInfo(name, Some(Split(tail, '/')[0])) by {
      TokenTail(userAgent);
      SplitHead(token, '/');
    }
    assert |tail| == |rest| || IsSep(rest[|tail|]) by {
      FirstToken(userAgent);
      if |tail| < |rest| {
        DropIndex(userAgent, |name| + 1, |tail|);
      }
    }
    SplitFirst(tail, '/');
  }

  /** Indexing past a dropped prefix. */
  lemma DropIndex(s: string, a: nat, j: nat)
    requires a + j < |s|
    ensures s[a..][j] == s[a + j]
  {
  }

  /** A field of a prefix that is itself ended by a separator (or by the end of `s`) is
      a field of `s`. */
  lemma FieldOfPrefix(s: string, t: string, v: string)
    requires StartsWith(s, t) && (|t| == |s| || IsSep(s[|t|]))
    requires StartsWith(t, v) && (|v| == |t| || t[|v|] == '/')
    ensures StartsWith(s, v) && (|v| == |s| || IsSep(s[|v|]))
  {
    PrefixTrans(s, t, v);
    if |v| < |t| {
      assert s[|v|] == s[..|t|][|v|];
    }
  }

  /** `pkgInfo ? pkgInfo.name : "npm"` */
  function PackageManagerName(info: Option<PkgInfo>): string
  {
    if info.Some? then info.value.name else "npm"
  }

  /** The package manager is npm when there is no agent, and otherwise the agent's
      longest prefix without a space or a `/`. */
  lemma PackageManagerAgent(userAgent: Option<string>)
    ensures !Truthy(userAgent) ==> PackageManagerName(PkgFromUserAgent(userAgent)) == "npm"
    ensures Truthy(userAgent) ==>
              var name := PackageManagerName(PkgFromUserAgent(userAgent));
              && StartsWith(userAgent.value, name)
              && (|name| == |userAgent.value| || IsSep(userAgent.value[|name|]))
              && forall i :: 0 <= i < |name| ==> !IsSep(userAgent.value[i])
  {
    if Truthy(userAgent) {
      NameField(userAgent.value);
      NameIsSepFree(userAgent.value);
    }
  }

  /** The agent names yarn without a version: `pkgInfo?.version.startsWith("1.")` at
      src/index.ts:358 then throws a TypeError. */
  predicate YarnWithoutVersion(info: Option<PkgInfo>)
  {
    info.Some? && info.value.name == "yarn" && info.value.version.None?
  }

  /** `pkgManager === "yarn" && pkgInfo?.version.startsWith("1.")` */
  function IsYarn1(info: Option<PkgInfo>): (yarn1: bool)
    requires !YarnWithoutVersion(info)
    ensures yarn1 ==> info.Some? && info.value.name == "yarn"
    ensures info.None? ==> !yarn1
  {
    PackageManagerName(info) == "yarn" && StartsWith(info.value.version.value, "1.")
  }

  /** The name is free of separators, character by character of the agent. */
  lemma NameIsSepFree(userAgent: string)
    requires userAgent != ""
    ensures var name := PkgFromUserAgent(Some(userAgent)).value.name;
            forall i :: 0 <= i < |name| ==> !IsSep(userAgent[i])
  {
    var name := PkgFromUserAgent(Some(userAgent)).value.name;
    NameField(userAgent);
    forall i | 0 <= i < |name| ensures !IsSep(userAgent[i]) {
      assert userAgent[i] == name[i];
    }
  }

  /** An agent that starts with `yarn` followed by a separator or its end names yarn. */
  lemma {:induction false} YarnAgentName(userAgent: string)
    requires StartsWith(userAgent, "yarn") && (|userAgent| == 4 || IsSep(userAgent[4]))
    ensures PkgFromUserAgent(Some(userAgent)).value.name == "yarn"
  {
    var name := PkgFromUserAgent(Some(userAgent)).value.name;
    NameField(userAgent);
    NameIsSepFree(userAgent);
    LiteralsSepFree();
    SepFreePrefix(userAgent, "yarn");
    TokenExtends(userAgent, "yarn", name);
    TokenExtends(userAgent, name, "yarn");
    PrefixBoth(name, "yarn");
  }

  /** The literal fields the scaffolder compares against hold no separator. */
  lemma LiteralsSepFree()
    ensures forall i :: 0 <= i < |"yarn"| ==> !IsSep("yarn"[i])
    ensures forall i :: 0 <= i < |"1."| ==> !IsSep("1."[i])
  {
  }

  /** A prefix free of separators makes the same prefix of `s` free of them. */
  lemma SepFreePrefix(s: string, q: string)
    requires StartsWith(s, q) && forall i :: 0 <= i < |q| ==> !IsSep(q[i])
    ensures forall i :: 0 <= i < |q| ==> !IsSep(s[i])
  {
    forall i | 0 <= i < |q| ensures !IsSep(s[i]) {
      assert s[i] == s[..|q|][i];
    }
  }

  /** Two strings, each a prefix of the other, are equal. */
  lemma PrefixBoth(a: string, b: string)
    requires StartsWith(a, b) && StartsWith(b, a)
    ensures a == b
  {
  }

  /** A prefix of a prefix is a prefix. */
  lemma PrefixTrans(s: string, p: string, q: string)
    requires StartsWith(s, p) && StartsWith(p, q)
    ensures StartsWith(s, q)
  {
    assert s[..|q|] == s[..|p|][..|q|];
  }

  /** A prefix made of two parts. */
  lemma StartsWithConcat(s: string, p: string, q: string)
    ensures StartsWith(s, p + q) <==> StartsWith(s, p) && StartsWith(s[|p|..], q)
  {
    if StartsWith(s, p) && StartsWith(s[|p|..], q) {
      assert s[..|p| + |q|] == s[..|p|] + s[|p|..][..|q|];
    }
    if StartsWith(s, p + q) {
      assert s[..|p|] == s[..|p| + |q|][..|p|];
      assert s[|p|..][..|q|] == s[..|p| + |q|][|p|..];
    }
  }

  /** The agent makes the scaffolder fail at src/index.ts:358 exactly when it is `yarn`
      alone or starts with `yarn ` (yarn with no version field). */
  lemma {:induction false} YarnWithoutVersionAgent(userAgent: string)
    requires userAgent != ""
    ensures YarnWithoutVersion(PkgFromUserAgent(Some(userAgent)))
            <==> userAgent == "yarn" || StartsWith(userAgent, "yarn ")
  {
    var info := PkgFromUserAgent(Some(userAgent)).value;
    NameField(userAgent);
    YarnSpace();
    StartsWithNext(userAgent, "yarn", ' ');
    if userAgent == "yarn" || StartsWith(userAgent, "yarn ") {
      assert StartsWith(userAgent, "yarn") && (|userAgent| == 4 || IsSep(userAgent[4]));
      YarnAgentName(userAgent);
    }
    if info.name == "yarn" && info.version.None? {
      if |userAgent| == 4 {
        assert userAgent == userAgent[..4];
      } else {
        assert userAgent[4] == ' ';
      }
    }
  }

  /** `yarn ` is `yarn` followed by a space. */
  lemma YarnSpace()
    ensures "yarn " == "yarn" + [' ']
  {
  }

  /** A prefix followed by one more character. */
  lemma StartsWithNext(s: string, p: string, c: char)
    ensures StartsWith(s, p + [c]) <==> StartsWith(s, p) && |p| < |s| && s[|p|] == c
  {
    if StartsWith(s, p) && |p| < |s| && s[|p|] == c {
      assert s[..|p| + 1] == s[..|p|] + [s[|p|]];
    }
    if StartsWith(s, p + [c]) {
      assert s[..|p|] == s[..|p| + 1][..|p|];
    }
  }

  /** `isYarn1` holds exactly when the agent starts with `yarn/1.`. */
  lemma {:induction false} IsYarn1Agent(userAgent: string)
    requires userAgent != "" && !YarnWithoutVersion(PkgFromUserAgent(Some(userAgent)))
    ensures IsYarn1(PkgFromUserAgent(Some(userAgent))) <==> StartsWith(userAgent, "yarn/1.")
  {
    var info := PkgFromUserAgent(Some(userAgent)).value;
    NameField(userAgent);
    YarnSlash();
    StartsWithConcat(userAgent, "yarn/", "1.");
    StartsWithNext(userAgent, "yarn", '/');
    if StartsWith(userAgent, "yarn/1.") {
      YarnAgentName(userAgent);
      VersionField(userAgent);
      LiteralsSepFree();
      SepFreePrefix(userAgent[5..], "1.");
      TokenExtends(userAgent[5..], info.version.value, "1.");
    }
    if IsYarn1(PkgFromUserAgent(Some(userAgent))) {
      VersionField(userAgent);
      PrefixTrans(userAgent[5..], info.version.value, "1.");
    }
  }

  /** `yarn/1.` is `yarn`, a `/` and `1.`. */
  lemma YarnSlash()
    ensures "yarn/1." == "yarn/" + "1."
    ensures "yarn/" == "yarn" + ['/']
  {
  }

  /** `.replace(/^npm create/, `${pkgManager} create`)`: the replacement is a string,
      so its `$` patterns are expanded. For a manager name without `$`, a leading
      `npm create` becomes `<pkgManager> create`; any other command is left as it is. */
  function ReplaceCreate(command: string, pkgManager: string): (r: string)
    ensures '$' !in pkgManager && StartsWith(command, "npm create") ==>
              r == pkgManager + " create" + command[10..]
    ensures !StartsWith(command, "npm create") ==> r == command
  {
    if StartsWith(command, "npm create") then
      assert '$' !in pkgManager ==> '$' !in pkgManager + " create";
      Substitute(pkgManager + " create", "", "npm create", command[10..]) + command[10..]
    else command
  }

  /** `.replace("@latest", () => (isYarn1 ? "" : "@latest"))`: the first `@latest` is
      dropped when `isYarn1`, and nothing changes otherwise. */
  function ReplaceLatest(command: string, isYarn1: bool): (r: string)
    ensures !isYarn1 ==> r == command
    ensures isYarn1 && Contains(command, "@latest") ==>
              var k := IndexOf(command, "@latest").value;
              r == command[..k] + command[k + 7..]
    ensures !Contains(command, "@latest") ==> r == command
  {
    if !isYarn1 then
      ReplaceFirstSelf(command, "@latest");
      ReplaceFirst(command, "@latest", "@latest")
    else if Contains(command, "@latest") then
      ReplaceFirstAtIndexOf(command, "@latest", "");
      var k := IndexOf(command, "@latest").value;
      assert command[..k] + "" == command[..k];
      ReplaceFirst(command, "@latest", "")
    else ReplaceFirst(command, "@latest", "")
  }

  /** The callback of `.replace(/^npm exec/, ...)`: `pnpm dlx` for pnpm, `yarn dlx` for
      yarn other than 1.x, and `npm exec` itself otherwise; always eight characters. */
  function ExecRunner(pkgManager: string, isYarn1: bool): (runner: string)
    ensures |runner| == 8
    ensures pkgManager != "pnpm" && pkgManager != "yarn" ==> runner == "npm exec"
  {
    if pkgManager == "pnpm" then "pnpm dlx"
    else if pkgManager == "yarn" && !isYarn1 then "yarn dlx"
    else "npm exec"
  }

  /** `.replace(/^npm exec/, ...)`: only the leading eight characters can change, and
      only when they are `npm exec`. */
  function ReplaceExec(command: string, pkgManager: string, isYarn1: bool): (r: string)
    ensures |r| == |command|
    ensures |command| >= 8 ==> r[8..] == command[8..]
    ensures StartsWith(command, "npm exec") ==> StartsWith(r, ExecRunner(pkgManager, isYarn1))
    ensures !StartsWith(command, "npm exec") ==> r == command
  {
    if StartsWith(command, "npm exec") then ExecRunner(pkgManager, isYarn1) + command[8..]
    else command
  }

  /** `fullCustommand` (src/index.ts:375-389): the three rewrites in order. A command that
      starts with neither `npm create` nor `npm exec` and holds no `@latest` is left as
      it is. */
  function RewriteCommand(command: string, pkgManager: string, isYarn1: bool): (r: string)
    ensures (!StartsWith(command, "npm create") && !StartsWith(command, "npm exec")
             && !Contains(command, "@latest")) ==> r == command
  {
    ReplaceExec(ReplaceLatest(ReplaceCreate(command, pkgManager), isYarn1), pkgManager, isYarn1)
  }

  /** A command that starts with a space-free manager name and ` create ` is not an
      `npm exec` command, so the last rewrite leaves it alone. */
  lemma CreateIsNotExec(pkgManager: string, tool: string, rep: string, args: string, isYarn1: bool)
    requires ' ' !in pkgManager
    ensures var c := pkgManager + " create " + tool + rep + args;
            ReplaceExec(c, pkgManager, isYarn1) == c
  {
    var c := pkgManager + " create " + tool + rep + args;
    var j := if |pkgManager| >= 4 then 3 else if |pkgManager| < 3 then |pkgManager| else 4;
    assert c[..|pkgManager| + 8] == pkgManager + " create ";
    assert j < |c| && c[j] != "npm exec"[j];
  }

  /** The first rewrite of `npm create <tool>@latest<args>`. */
  lemma CreateStep(tool: string, args: string, pkgManager: string)
    requires '$' !in pkgManager
    ensures ReplaceCreate("npm create " + tool + "@latest" + args, pkgManager)
            == (pkgManager + " create " + tool) + ("@latest" + args)
  {
    var command := "npm create " + tool + "@latest" + args;
    var x := tool + ("@latest" + args);
    assert "npm create " == "npm create" + " ";
    AppendAssoc("npm create ", tool, "@latest");
    AppendAssoc("npm create ", tool + "@latest", args);
    AppendAssoc(tool, "@latest", args);
    AppendAssoc("npm create", " ", x);
    assert command == "npm create" + (" " + x);
    AppendAssoc(pkgManager + " create", " ", x);
    AppendAssoc(pkgManager, " create", " ");
    AppendAssoc(pkgManager + " create ", tool, "@latest" + args);
  }

  /** The second rewrite, once the prefix holds no `@`. */
  lemma LatestStep(prefix: string, args: string, isYarn1: bool)
    requires '@' !in prefix
    ensures ReplaceLatest(prefix + ("@latest" + args), isYarn1)
            == prefix + (if isYarn1 then "" else "@latest") + args
  {
    var tail := "@latest" + args;
    if isYarn1 {
      ReplaceFirstShift(prefix, tail, "@latest", "");
      ReplaceFirstHead("@latest", args, "");
      assert ReplaceLatest(prefix + tail, true) == ReplaceFirst(prefix + tail, "@latest", "");
    } else {
      AppendAssoc(prefix, "@latest", args);
    }
  }

  /** The exact output for a custom command of the form `npm create <tool>@latest<args>`,
      where the tool name has no `@`: the manager's own `create`, with `@latest` kept
      unless the manager is yarn 1.x. */
  lemma CreateCommandOutput(tool: string, args: string, pkgManager: string, isYarn1: bool)
    requires '@' !in tool && ' ' !in pkgManager && '$' !in pkgManager
    requires isYarn1 ==> pkgManager == "yarn"
    ensures RewriteCommand("npm create " + tool + "@latest" + args, pkgManager, isYarn1)
            == pkgManager + " create " + tool + (if isYarn1 then "" else "@latest") + args
  {
    var rep := if isYarn1 then "" else "@latest";
    CreateStep(tool, args, pkgManager);
    if isYarn1 {
      assert '@' !in pkgManager + " create " + tool;
      LatestStep(pkgManager + " create " + tool, args, isYarn1);
    } else {
      AppendAssoc(pkgManager + " create " + tool, "@latest", args);
    }
    CreateIsNotExec(pkgManager, tool, rep, args, isYarn1);
  }

  /** The exact output for a custom command of the form `npm exec<args>` without
      `@latest`: `pnpm dlx` for pnpm, `yarn dlx` for yarn other than 1.x, and
      `npm exec` otherwise. */
  lemma ExecCommandOutput(args: string, pkgManager: string, isYarn1: bool)
    requires !Contains(args, "@latest")
    ensures RewriteCommand("npm exec" + args, pkgManager, isYarn1)
            == (if pkgManager == "pnpm" then "pnpm dlx"
                else if pkgManager == "yarn" && !isYarn1 then "yarn dlx"
                else "npm exec") + args
  {
    var command := "npm exec" + args;
    assert command[..8] == "npm exec" && command[8..] == args;
    assert !StartsWith(command, "npm create") by {
      assert |command| < 10 || command[4] != "npm create"[4];
    }
    ContainsShift("npm exec", args, "@latest");
  }
}
