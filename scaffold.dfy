/** `init` (src/index.ts:191-391): the question sequence, the target-directory step,
    template resolution, package-manager detection, the custom-command lookup as
    written, and the command rewrite. The answers to the questions are inputs. */
module Scaffold {
  import opened JsText
  import opened PackageNames
  import opened Catalog
  import opened TargetDirectory
  import opened PackageManager

  /** `defaultTargetDir` */
  const DefaultTargetDir: string := "vite-project"

  /** The answers the user gives, one per question; a question that is not asked
      ignores its reply. The variant reply is `None` when the select returns nothing
      (a framework without variants). */
  datatype Replies = Replies(
    projectName: Reply<string>,
    overwrite: Reply<bool>,
    packageName: Reply<string>,
    framework: Reply<Framework>,
    variant: Reply<Option<string>>)

  /** How `init` ends: a cancelled question or a declined overwrite; the TypeError at
      src/index.ts:358; or the decisions it reaches. */
  datatype Outcome =
    | Aborted
    | Failed(targetDir: string)
    | Resolved(targetDir: string, packageName: Option<string>, template: string, isReactSwc: bool,
               pkgManager: string, isYarn1: bool, customCommand: Option<string>, fullCommand: Option<string>)

  /** `getProjectName()` */
  function ProjectName(targetDir: string, cwdName: string): (name: string)
    ensures name == cwdName || name == targetDir
    ensures targetDir != "." ==> name == targetDir
    ensures targetDir == "." ==> name == cwdName
  {
    if targetDir == "." then cwdName else targetDir
  }

  /** The framework question is skipped exactly when `--template` names a catalog
      template; `Catalog.Templates` shows `TEMPLATES` is `TemplateNames`. */
  function TemplateGiven(argTemplate: Option<string>): (given: bool)
    ensures given <==> Truthy(argTemplate) && argTemplate.value in Templates()
  {
    Truthy(argTemplate) && argTemplate.value in TemplateNames
  }

  /** What the questions settle when none is cancelled. */
  datatype Answers = Answers(targetDir: string, overwrite: Option<bool>, packageName: Option<string>,
                             framework: Option<Framework>, variant: Option<string>)

  /** The target directory the first question settles (src/index.ts:196-228): the
      formatted command-line argument when it is truthy; otherwise the question is asked
      and its answer, formatted, replaces the default `vite-project` unless it formats to
      nothing. `None` when the question is cancelled. */
  function PromptedTargetDir(argTarget: Option<string>, reply: Reply<string>): (targetDir: Option<string>)
    ensures Truthy(FormatTargetDir(argTarget)) ==> targetDir == Some(FormatTargetDir(argTarget).value)
    ensures !Truthy(FormatTargetDir(argTarget)) ==> (targetDir.None? <==> reply.Cancel?)
    ensures !Truthy(FormatTargetDir(argTarget)) && reply.Answer? && !Truthy(FormatTargetDir(Some(reply.value))) ==>
              targetDir == Some(DefaultTargetDir)
    ensures !Truthy(FormatTargetDir(argTarget)) && reply.Answer? && Truthy(FormatTargetDir(Some(reply.value))) ==>
              targetDir == Some(FormatTargetDir(Some(reply.value)).value)
    ensures targetDir.Some? ==> targetDir.value != "" && targetDir.value[|targetDir.value| - 1] != '/'
  {
    if Truthy(FormatTargetDir(argTarget)) then Some(FormatTargetDir(argTarget).value)
    else match reply
      case Cancel => None
      case Answer(name) => Some(OrDefault(FormatTargetDir(Some(name))))
  }

  /** No question of `init` ends it: the project name is not cancelled, an existing
      non-empty target is confirmed for overwriting, the package name is not cancelled
      when it is asked for, and neither the framework nor the variant is cancelled when
      `--template` does not name a catalog template. */
  predicate GoesOn(dirs: map<string, seq<string>>, argTarget: Option<string>, argTemplate: Option<string>,
                   cwdName: string, replies: Replies)
  {
    var t := PromptedTargetDir(argTarget, replies.projectName);
    && t.Some?
    && (t.value in dirs && !IsEmpty(dirs[t.value]) ==> replies.overwrite == Answer(true))
    && (IsValidPackageName(ProjectName(t.value, cwdName)) || replies.packageName.Answer?)
    && (TemplateGiven(argTemplate) || (replies.framework.Answer? && replies.variant.Answer?))
  }

  /** `variant || framework?.name || argTemplate` for the replies of a run that goes on:
      the framework and variant replies count only when their questions are asked. */
  function ChosenFromReplies(argTemplate: Option<string>, replies: Replies): Option<string>
    requires !TemplateGiven(argTemplate) ==> replies.framework.Answer? && replies.variant.Answer?
  {
    if TemplateGiven(argTemplate) then ChosenTemplate(None, None, argTemplate)
    else ChosenTemplate(replies.variant.value, Some(replies.framework.value), argTemplate)
  }

  /** The question sequence of `init` (src/index.ts:210-321) with the `targetDir` it
      keeps up to date; `None` when a question is cancelled or the overwrite declined. */
  method Ask(fs: FileSystem, argTarget: Option<string>, argTemplate: Option<string>, cwdName: string,
             replies: Replies) returns (answers: Option<Answers>)
    requires replies.framework.Answer? ==> replies.framework.value.name != ""
    requires replies.packageName.Answer? ==> IsValidPackageName(replies.packageName.value)
    // the questions get through exactly when none of them ends `init`
    ensures answers.Some? <==> GoesOn(fs.dirs, argTarget, argTemplate, cwdName, replies)
    // the target directory is the one the first question settles
    ensures answers.Some? ==> answers.value.targetDir == PromptedTargetDir(argTarget, replies.projectName).value
    // the overwrite question is asked only for an existing, non-empty target
    ensures answers.Some? ==>
              var t := answers.value.targetDir;
              && (t in fs.dirs && !IsEmpty(fs.dirs[t]) ==> answers.value.overwrite == Some(true))
              && (t !in fs.dirs || IsEmpty(fs.dirs[t]) ==> answers.value.overwrite.None?)
    // a package name is asked for only when the project name is not one
    ensures answers.Some? ==>
              answers.value.packageName
                == if IsValidPackageName(ProjectName(answers.value.targetDir, cwdName)) then None
                   else Some(replies.packageName.value)
    // a framework and a variant are asked for exactly when `--template` does not name
    // a catalog template
    ensures answers.Some? ==>
              && (answers.value.framework, answers.value.variant)
                   == (if TemplateGiven(argTemplate) then (None, None)
                       else (Some(replies.framework.value), replies.variant.value))
              && ChosenTemplate(answers.value.variant, answers.value.framework, argTemplate)
                   == ChosenFromReplies(argTemplate, replies)
              && ChosenTemplate(answers.value.variant, answers.value.framework, argTemplate).Some?
  {
    var targetDir := AskProjectName(argTarget, replies.projectName);
    if targetDir.None? {
      return None;
    }

    var gate := OverwriteGate(fs.Listing(targetDir.value), replies.overwrite);
    if !Proceeds(gate) {
      return None;
    }

    var packageName := AskPackageName(ProjectName(targetDir.value, cwdName), replies.packageName);
    if packageName.None? {
      return None;
    }

    var choice := AskTemplate(argTemplate, replies.framework, replies.variant);
    if choice.None? {
      return None;
    }
    answers := Some(Answers(targetDir.value, OverwriteAnswer(gate), packageName.value,
                            choice.value.0, choice.value.1));
  }

  /** A formatted directory name, or the default when it formats to nothing: never
      empty and never ending in `/`. */
  function OrDefault(formatted: Option<string>): (dir: string)
    requires formatted.Some? ==> formatted.value == [] || formatted.value[|formatted.value| - 1] != '/'
    ensures dir != "" && dir[|dir| - 1] != '/'
  {
    if Truthy(formatted) then formatted.value else DefaultTargetDir
  }

  /** The project-name question (src/index.ts:196-228), with `targetDir` starting at
      the formatted argument or the default and updated from the answer. */
  method AskProjectName(argTarget: Option<string>, reply: Reply<string>) returns (targetDir: Option<string>)
    ensures targetDir == PromptedTargetDir(argTarget, reply)
  {
    var argTargetDir := FormatTargetDir(argTarget);
    var dir := OrDefault(argTargetDir);
    if !Truthy(argTargetDir) {
      match reply {
        case Cancel =>
          return None;
        case Answer(name) =>
          dir := OrDefault(FormatTargetDir(Some(name)));
      }
    }
    targetDir := Some(dir);
  }

  /** The package-name question (src/index.ts:261-275): asked only when the project
      name is not a valid package name. `None` when cancelled; otherwise the answer,
      `Some(None)` when the question is skipped. */
  method AskPackageName(projectName: string, reply: Reply<string>) returns (packageName: Option<Option<string>>)
    requires reply.Answer? ==> IsValidPackageName(reply.value)
    ensures packageName.None? <==> !IsValidPackageName(projectName) && reply.Cancel?
    ensures packageName == Some(None) <==> IsValidPackageName(projectName)
    ensures packageName.Some? && packageName.value.Some? ==>
              reply == Answer(packageName.value.value) && IsValidPackageName(packageName.value.value)
  {
    if IsValidPackageName(projectName) {
      return Some(None);
    }
    match reply {
      case Cancel =>
        packageName := None;
      case Answer(name) =>
        packageName := Some(Some(name));
    }
  }

  /** The framework and variant questions (src/index.ts:277-310): asked only when
      `--template` does not name a catalog template; every framework has a `variants`
      array, so the variant question always follows the framework question. `None`
      when either is cancelled; otherwise the framework and the variant chosen. */
  method AskTemplate(argTemplate: Option<string>, frameworkReply: Reply<Framework>, variantReply: Reply<Option<string>>)
    returns (choice: Option<(Option<Framework>, Option<string>)>)
    requires frameworkReply.Answer? ==> frameworkReply.value.name != ""
    ensures choice.None? <==> !TemplateGiven(argTemplate) && (frameworkReply.Cancel? || variantReply.Cancel?)
    ensures choice.Some? && TemplateGiven(argTemplate) ==> choice.value == (None, None)
    ensures choice.Some? && !TemplateGiven(argTemplate) ==>
              choice.value == (Some(frameworkReply.value), variantReply.value)
    ensures choice.Some? ==> ChosenTemplate(choice.value.1, choice.value.0, argTemplate).Some?
  {
    if TemplateGiven(argTemplate) {
      return Some((None, None));
    }
    match frameworkReply {
      case Cancel =>
        return None;
      case Answer(f) =>
        match variantReply {
          case Cancel =>
            return None;
          case Answer(v) =>
            choice := Some((Some(f), v));
        }
    }
  }

  /** The directory step of `init` (src/index.ts:330-337). */
  method PrepareTarget(fs: FileSystem, targetDir: string, overwrite: Option<bool>)
    requires fs.Valid()
    requires targetDir in fs.dirs && !IsEmpty(fs.dirs[targetDir]) ==> overwrite == Some(true)
    requires overwrite == Some(true) ==> targetDir in fs.dirs
    modifies fs
    ensures fs.Valid()
    ensures targetDir in fs.dirs && IsEmpty(fs.dirs[targetDir])
    ensures targetDir !in old(fs.dirs) ==> fs.dirs == old(fs.dirs)[targetDir := []]
    ensures targetDir in old(fs.dirs) && overwrite != Some(true) ==> fs.dirs == old(fs.dirs)
    ensures overwrite == Some(true) ==> fs.dirs == old(fs.dirs)[targetDir := KeepGit(old(fs.dirs)[targetDir])]
  {
    var action := DirectoryAction(overwrite, targetDir in fs.dirs);
    if action == Clear {
      EmptyDirLeavesEmpty(fs.dirs[targetDir]);
      fs.EmptyDir(targetDir);
    } else if action == Create {
      fs.MakeDir(targetDir);
    }
  }

  /** `init`, given the filesystem, `argv._[0]`, `argv.template || argv.t`, the base name
      of the working directory, `npm_config_user_agent` and the user's replies. */
  method Init(fs: FileSystem, argTarget: Option<string>, argTemplate: Option<string>, cwdName: string,
              userAgent: Option<string>, replies: Replies) returns (outcome: Outcome)
    requires fs.Valid()
    requires replies.framework.Answer? ==> replies.framework.value.name != ""
    requires replies.packageName.Answer? ==> IsValidPackageName(replies.packageName.value)
    modifies fs
    ensures fs.Valid()
    // `init` stops early exactly when a question ends it
    ensures outcome.Aborted? <==> !GoesOn(old(fs.dirs), argTarget, argTemplate, cwdName, replies)
    // the target directory is the one the first question settles
    ensures !outcome.Aborted? ==> outcome.targetDir == PromptedTargetDir(argTarget, replies.projectName).value
    // cancelling or declining the overwrite writes nothing
    ensures outcome.Aborted? ==> fs.dirs == old(fs.dirs)
    // otherwise the target exists and is empty, and nothing else changed
    ensures !outcome.Aborted? ==>
              var t := outcome.targetDir;
              && t in fs.dirs && IsEmpty(fs.dirs[t])
              && (t !in old(fs.dirs) ==> fs.dirs == old(fs.dirs)[t := []])
              && (t in old(fs.dirs) && IsEmpty(old(fs.dirs)[t]) ==> fs.dirs == old(fs.dirs))
              && (t in old(fs.dirs) && !IsEmpty(old(fs.dirs)[t]) ==>
                    replies.overwrite == Answer(true) && fs.dirs == old(fs.dirs)[t := KeepGit(old(fs.dirs)[t])])
    ensures outcome.Failed? <==> !outcome.Aborted? && YarnWithoutVersion(PkgFromUserAgent(userAgent))
    // the package name is the answer to its question, asked only for an invalid project name
    ensures outcome.Resolved? ==>
              outcome.packageName
                == if IsValidPackageName(ProjectName(outcome.targetDir, cwdName)) then None
                   else Some(replies.packageName.value)
    // the template is the chosen value with its first `-swc` cut out
    ensures outcome.Resolved? ==>
              var chosen := ChosenFromReplies(argTemplate, replies);
              && chosen.Some?
              && (outcome.isReactSwc <==> Contains(chosen.value, "-swc"))
              && outcome.template == SwcStripped(chosen.value)
    ensures outcome.Resolved? ==>
              && outcome.pkgManager == PackageManagerName(PkgFromUserAgent(userAgent))
              && !YarnWithoutVersion(PkgFromUserAgent(userAgent))
              && outcome.isYarn1 == IsYarn1(PkgFromUserAgent(userAgent))
    // the lookup by assignment never finds a custom command
    ensures outcome.Resolved? ==> outcome.customCommand.None? && outcome.fullCommand.None?
  {
    var answers := Ask(fs, argTarget, argTemplate, cwdName, replies);
    if answers.None? {
      return Aborted;
    }
    var targetDir := answers.value.targetDir;
    ghost var before := fs.dirs;
    PrepareTarget(fs, targetDir, answers.value.overwrite);
    if targetDir in before && IsEmpty(before[targetDir]) {
      assert fs.dirs == before;
    }

    outcome := Decide(answers.value, argTemplate, userAgent);
  }

  /** The part of `init` after the directory step (src/index.ts:340-390): the template,
      the package manager and the custom command, for the settled answers. */
  method Decide(answers: Answers, argTemplate: Option<string>, userAgent: Option<string>) returns (outcome: Outcome)
    requires ChosenTemplate(answers.variant, answers.framework, argTemplate).Some?
    ensures !outcome.Aborted? && outcome.targetDir == answers.targetDir
    ensures outcome.Failed? <==> YarnWithoutVersion(PkgFromUserAgent(userAgent))
    ensures outcome.Resolved? ==> outcome.packageName == answers.packageName
    ensures outcome.Resolved? ==>
              var chosen := ChosenTemplate(answers.variant, answers.framework, argTemplate).value;
              && (outcome.isReactSwc <==> Contains(chosen, "-swc"))
              && outcome.template == SwcStripped(chosen)
    ensures outcome.Resolved? ==>
              && outcome.pkgManager == PackageManagerName(PkgFromUserAgent(userAgent))
              && outcome.isYarn1 == IsYarn1(PkgFromUserAgent(userAgent))
              && outcome.customCommand.None? && outcome.fullCommand.None?
  {
    var template, isReactSwc := ResolveTemplate(answers.variant, answers.framework, argTemplate);

    var pkgInfo := PkgFromUserAgent(userAgent);
    var pkgManager := PackageManagerName(pkgInfo);
    if YarnWithoutVersion(pkgInfo) {
      return Failed(answers.targetDir);
    }
    var isYarn1 := IsYarn1(pkgInfo);

    var customCommand, fullCommand := LookUpCommand(template, pkgManager, isYarn1);
    outcome := Resolved(answers.targetDir, answers.packageName, template, isReactSwc, pkgManager, isYarn1,
                        customCommand, fullCommand);
  }

  /** The custom-command lookup and rewrite of `init` as written (src/index.ts:365-390):
      the variant objects are renamed by the `find` callback, the first one (which has
      no custom command) is returned for a non-empty template, and so no command is
      ever rewritten. */
  method LookUpCommand(template: string, pkgManager: string, isYarn1: bool)
    returns (customCommand: Option<string>, fullCommand: Option<string>)
    ensures customCommand.None? && fullCommand.None?
  {
    var flat := NewFlatCatalog();
    FirstFlatVariant();
    var found := FindByAssignment(flat, template);
    customCommand := if found.Some? then found.value.customCommand else None;
    fullCommand := None;
    match customCommand {
      case Some(command) =>
        fullCommand := Some(RewriteCommand(command, pkgManager, isYarn1));
      case None =>
    }
  }

  /** The custom-command step as evidently intended (src/index.ts:365-390 with the
      callback comparing, `v.name === template`): the command of the variant named
      `template`, rewritten for the package manager. */
  function IntendedCommand(template: string, pkgManager: string, isYarn1: bool): (command: Option<string>)
    ensures command.Some? ==> template in TemplateNames
  {
    FindByNameCatalogOnly(template);
    var found := FindByName(FlatVariants(Frameworks), template);
    if found.Some? && found.value.customCommand.Some? then
      Some(RewriteCommand(found.value.customCommand.value, pkgManager, isYarn1))
    else None
  }

  /** With the comparing lookup, a catalog template finds its own variant's command. */
  lemma IntendedCatalogCommand(i: nat, pkgManager: string, isYarn1: bool)
    requires i < |TemplateNames|
    ensures |FlatVariants(Frameworks)| == |TemplateNames|
    ensures var command := FlatVariants(Frameworks)[i].customCommand;
            IntendedCommand(TemplateNames[i], pkgManager, isYarn1)
              == if command.Some? then Some(RewriteCommand(command.value, pkgManager, isYarn1)) else None
  {
    FindByNameCatalog(i);
  }

  /** The rewrite of a catalog command `npm create <tool>@latest TARGET_DIR`. */
  lemma CreateTargetRewrite(tool: string, pkgManager: string, isYarn1: bool)
    requires '@' !in tool && ' ' !in pkgManager && '$' !in pkgManager
    requires isYarn1 ==> pkgManager == "yarn"
    ensures RewriteCommand("npm create " + tool + "@latest TARGET_DIR", pkgManager, isYarn1)
            == pkgManager + " create " + tool + (if isYarn1 then "" else "@latest") + " TARGET_DIR"
  {
    assert "@latest TARGET_DIR" == "@latest" + " TARGET_DIR";
    assert "npm create " + tool + "@latest TARGET_DIR" == "npm create " + tool + "@latest" + " TARGET_DIR";
    CreateCommandOutput(tool, " TARGET_DIR", pkgManager, isYarn1);
  }

  /** With the comparing lookup, the three `npm create` templates, `custom-create-vue`,
      `custom-svelte-kit` and `create-vite-extra`, run the package manager's own
      `create` of their tool, without `@latest` for yarn 1.x. */
  lemma IntendedCreate(i: nat, tool: string, pkgManager: string, isYarn1: bool)
    requires (i == 2 && tool == "vue") || (i == 14 && tool == "svelte") || (i == 15 && tool == "vite-extra")
    requires ' ' !in pkgManager && '$' !in pkgManager
    requires isYarn1 ==> pkgManager == "yarn"
    ensures IntendedCommand(TemplateNames[i], pkgManager, isYarn1)
            == Some(pkgManager + " create " + tool + (if isYarn1 then "" else "@latest") + " TARGET_DIR")
  {
    CreateCommandAt(i, tool);
    IntendedCatalogCommand(i, pkgManager, isYarn1);
    CreateToolNames(tool);
    CreateTargetRewrite(tool, pkgManager, isYarn1);
  }

  /** The tools of the `npm create` commands carry no version. */
  lemma CreateToolNames(tool: string)
    requires tool == "vue" || tool == "svelte" || tool == "vite-extra"
    ensures '@' !in tool
  {
  }

  /** The rewrite of the catalog's `npm exec nuxi init TARGET_DIR` command. */
  lemma NuxtRewrite(pkgManager: string, isYarn1: bool)
    ensures RewriteCommand("npm exec nuxi init TARGET_DIR", pkgManager, isYarn1)
            == ExecRunner(pkgManager, isYarn1) + " nuxi init TARGET_DIR"
  {
    var args := " nuxi init TARGET_DIR";
    assert "npm exec nuxi init TARGET_DIR" == "npm exec" + args;
    ContainsFirstChar(args, "@latest");
    ExecCommandOutput(args, pkgManager, isYarn1);
  }

  /** With the comparing lookup, `custom-nuxt` (`TemplateNames[3]`) runs `nuxi` through the package
      manager's runner: `pnpm dlx`, `yarn dlx` for yarn other than 1.x, else `npm exec`. */
  lemma IntendedNuxt(pkgManager: string, isYarn1: bool)
    ensures IntendedCommand(TemplateNames[3], pkgManager, isYarn1)
            == Some(ExecRunner(pkgManager, isYarn1) + " nuxi init TARGET_DIR")
  {
    assert |FlatVariants(Frameworks)| == 16
        && FlatVariants(Frameworks)[3].customCommand == Some("npm exec nuxi init TARGET_DIR") by {
      CatalogCommands();
    }
    IntendedCatalogCommand(3, pkgManager, isYarn1);
    NuxtRewrite(pkgManager, isYarn1);
  }

  /** Every other catalog template has no custom command, so the comparing lookup
      leaves the template to be copied. */
  lemma IntendedNoCommand(i: nat, pkgManager: string, isYarn1: bool)
    requires i < |TemplateNames| && i != 2 && i != 3 && i != 14 && i != 15
    ensures IntendedCommand(TemplateNames[i], pkgManager, isYarn1).None?
  {
    CatalogCommands();
    IntendedCatalogCommand(i, pkgManager, isYarn1);
  }
}
