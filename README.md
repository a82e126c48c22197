# A verified model of the `create-vite`-style scaffolder (`src/index.ts`)

The scaffolder asks a few questions, in this order:

- the project name, which is also the target directory;
- whether to clear a non-empty target;
- a package name, when the project name is not a valid one;
- a framework, and then a variant.

It then does the following:

1. It clears or creates the target directory.
2. It resolves the template name, stripping `-swc` when present.
3. It detects the package manager from `npm_config_user_agent`.
4. It looks up the template's custom command and rewrites it for that package manager.

This project models that core in Dafny. It has six modules:

- `JsText` (`js_text.dfy`): the JavaScript string built-ins the code relies on. These are truthiness, `startsWith`, `indexOf`/`includes`, `replace` with a string pattern and `$` replacement patterns, one-character `split`, `trim` and `toLowerCase`.
- `PackageNames` (`package_names.dfy`): `toValidPackageName`, `isValidPackageName` and `formatTargetDir`.
- `Catalog` (`catalog.dfy`): `FRAMEWORKS` and `TEMPLATES`, and how the template is chosen and `-swc` stripped. It also holds the custom-command lookup in two forms:
  - as written, with an assignment inside `find` and mutable variant objects;
  - as an equality lookup.
- `TargetDirectory` (`target_directory.dfy`): `isEmpty`, the `emptyDir` loop over a filesystem object whose directory map it updates, the overwrite question and its checker, and the clear / create / leave decision.
- `PackageManager` (`package_manager.dfy`): `pkgFromUserAgent`, `isYarn1` and the three chained `.replace` calls that rewrite a custom command.
- `Scaffold` (`scaffold.dfy`): `init`. The prompts become method parameters (the user's replies), and so do the command line, the user agent and the working directory's name.

The functions on strings, the catalog and the rewrite are pure. `emptyDir`, the directory step and the `find` callback that renames variants are methods over mutable state.

### Where the code departs from its evident intent (the model follows the code)

- The doc comment of `toValidPackageName` (`src/index.ts:428-432`) says it turns a project name into a valid package name. The code gives `""` when the trimmed input is blank, `.` or `_`. `PackageNames.ToValidPackageNameEmpty` characterises exactly those inputs. `PackageNames.ToValidPackageNameIsValid` proves every non-empty result valid.
- The custom commands carry a `TARGET_DIR` placeholder (for example `src/index.ts:67`), evidently to be replaced by the target directory. The code never does this: the rewritten command keeps `TARGET_DIR`.
- The rewritten command `fullCustommand` is computed and then never used or run.
- The commented-out lookup at `src/index.ts:363` compares names, so a `--template` naming a variant would select that variant's custom command. The lookup in force at `src/index.ts:368` assigns instead of comparing, so no custom command is ever found (see Findings).
- The fallback `[f.name]` at `src/index.ts:179` is evidently meant for a framework without variants (`vanilla`). It is never taken, because an empty array is truthy, so `vanilla` does not appear in `TEMPLATES`. For the same reason the variant question is asked for every framework (`Catalog.MapVariantNames`, `Scaffold.AskTemplate`).

## Model

| member | source | states |
|---|---|---|
| JsText.IndexOf | src/index.ts:345 | `indexOf` is `None` exactly when the pattern does not occur; otherwise the pattern occurs at the index it gives |
| JsText.IndexOfFirst | src/index.ts:345 | the pattern occurs at no index before the one `indexOf` gives |
| JsText.ReplaceFirst | src/index.ts:347 | `replace` leaves a string without the pattern unchanged |
| JsText.ReplaceFirstAt | src/index.ts:347 | `replace` rewrites the leftmost occurrence and keeps the text on both sides of it |
| JsText.ReplaceFirstAtIndexOf | src/index.ts:347 | `replace` rewrites the occurrence at the index `indexOf` reports and keeps everything before and after it |
| JsText.ReplaceFirstSelf | src/index.ts:378 | replacing an occurrence by itself (`@latest` by `@latest` when not yarn 1.x) gives back the string |
| JsText.IndexOfChar | src/index.ts:402 | the first index of a character: the character is there and nowhere before; `None` exactly when it is absent |
| JsText.Split | src/index.ts:402-403 | `split` gives at least one piece; no piece holds the separator; every character of a piece comes from the input |
| JsText.SplitJoin | src/index.ts:402-403 | joining the pieces of `split` with the separator gives back the input |
| JsText.SplitFirst | src/index.ts:402 | the first piece is a prefix of the input, ended by the separator or the input's end |
| JsText.SplitHead | src/index.ts:403 | with no separator, `split` gives the input alone; otherwise the second piece is the first piece of what follows the first separator |
| JsText.TrimStart | src/index.ts:440 | the result is a suffix of the input, does not start with whitespace, and only whitespace was cut |
| JsText.TrimEnd | src/index.ts:440 | the result is a prefix of the input, does not end with whitespace, and only whitespace was cut |
| JsText.Trim | src/index.ts:498 | `trim` cuts whitespace from the two ends and nothing else: the result is the piece of the input that starts where `trimStart` stopped cutting, everything before and after that piece is whitespace, and the result has whitespace at neither end |
| JsText.ToLower | src/index.ts:441 | `toLowerCase` keeps the length and the whitespace positions, turns every ASCII capital into its lower-case letter (32 code points on), and keeps every other character |
| JsText.Substitute | src/index.ts:376 | a replacement string without `$` is inserted verbatim |
| PackageNames.ValidPackageNameIsPattern | src/index.ts:461 | `isValidPackageName` accepts exactly the strings the anchored regular expression describes: a name segment, or `@scope/` followed by a name segment |
| PackageNames.ValidPackageNameShape | src/index.ts:461 | a valid name is non-empty, has no upper-case letter, does not start with `.` or `_`, and every `/` is followed by a name-segment start |
| PackageNames.IsValidPackageName | src/index.ts:452-462 | a valid name is non-empty, starts with `@` exactly when it holds a `/`, and otherwise starts with a name-segment start `[a-z\d\-~]` |
| PackageNames.DropRun | src/index.ts:442 | dropping a run leaves a suffix of the input that does not start in the class, and every character dropped was in the class |
| PackageNames.ReplaceRuns | src/index.ts:442 | `replace(/<class>+/g, "-")` leaves only `-` or characters outside the class, is no longer than the input, and begins with `-` exactly when the input begins in the class |
| PackageNames.ReplaceRunsNoClass | src/index.ts:442 | `replace(/<class>+/g, "-")` leaves an input without class characters unchanged |
| PackageNames.ReplaceRunsKeeps | src/index.ts:442 | `replace(/<class>+/g, "-")` keeps every character that is neither in the class nor `-`, in the same order |
| PackageNames.ReplaceRunsPrefix | src/index.ts:442 | text without class characters passes through unchanged and the rest of the string is replaced after it |
| PackageNames.ReplaceRunsRun | src/index.ts:442 | a maximal run of class characters becomes exactly one `-`, in its place, followed by the replacement of what comes after the run |
| PackageNames.DropLeadingDotOrUnderscore | src/index.ts:443 | `replace(/^[._]/, "")` cuts at most one character, from the front, and cuts one exactly when the input starts with `.` or `_` |
| PackageNames.ToValidPackageName | src/index.ts:433-445 | every character of the normalised name is one of `[a-z\d\-~]` |
| PackageNames.ToValidPackageNameIsValid | src/index.ts:433-445 | round trip: a non-empty output of `toValidPackageName` passes `isValidPackageName` |
| PackageNames.ToValidPackageNameEmpty | src/index.ts:433-445 | the output is empty exactly when the trimmed input is `""`, `.` or `_` |
| PackageNames.DropTrailingSlashes | src/index.ts:498 | `replace(/\/+$/g, "")` gives a prefix not ending in `/`, and only `/` characters were cut |
| PackageNames.FormatTargetDir | src/index.ts:489-499 | `undefined` stays `undefined`; otherwise the result is a prefix of the trimmed input, does not end in `/`, and only `/` was cut from the trimmed input |
| PackageNames.FormatTargetDirIdempotent | src/index.ts:498 | formatting twice is formatting once, unless the first result ends in whitespace |
| PackageNames.FormatTargetDirOneSlash | src/index.ts:498 | `foo/` formats to `foo` |
| PackageNames.FormatTargetDirManySlashes | src/index.ts:498 | `foo///` formats to `foo`: the whole run of slashes goes |
| PackageNames.FormatTargetDirNotIdempotent | src/index.ts:498 | `a /` formats to `a `, which formats again to `a` |
| Catalog.Names | src/index.ts:179 | `variants.map((v) => v.name)`: one name per variant, in order |
| Catalog.MapVariantNames | src/index.ts:179 | the `map` step gives one entry per framework, its variant names: the `[f.name]` fallback is never taken |
| Catalog.Templates | src/index.ts:179-182 | `TEMPLATES` is exactly the 16 variant names, in declaration order |
| Catalog.FlatVariantsMembers | src/index.ts:365 | `flatMap((f) => f.variants)` holds a variant exactly when some framework has it |
| Catalog.TemplatesAreFlatNames | src/index.ts:179-182 | for any catalog, the map/reduce of `TEMPLATES` is the names of `flatMap((f) => f.variants)`, after the accumulator |
| Catalog.FlatCatalog | src/index.ts:41-174 | the flattened catalog is the variants of vue, react, preact, lit, svelte and others, in declaration order, with vanilla contributing none |
| Catalog.FlatNames | src/index.ts:41-174 | the flattened catalog's names are the 16 template names, in order |
| Catalog.TemplatesFacts | src/index.ts:179-182 | `TEMPLATES` has 16 distinct entries and does not include `vanilla` |
| Catalog.FrameworkNamesNonEmpty | src/index.ts:41-174 | every framework the framework question offers has a truthy name |
| Catalog.FindByName | src/index.ts:363 | the equality lookup finds nothing exactly when no variant has the name; otherwise it returns a variant of the list with that name |
| Catalog.FindByNameFirst | src/index.ts:363 | the equality lookup returns the first variant with the name |
| Catalog.FindByNameUnique | src/index.ts:363 | with distinct names, each variant is found by its own name |
| Catalog.FindByNameCatalog | src/index.ts:363 | with the equality lookup, each catalog template finds its own variant |
| Catalog.FindByNameCatalogOnly | src/index.ts:363 | the equality lookup finds something only for a catalog template |
| Catalog.FindByNameCustomCommand | src/index.ts:63-68 | with the equality lookup, `custom-create-vue` finds `npm create vue@latest TARGET_DIR` |
| Catalog.FirstFlatVariant | src/index.ts:52-57 | the first flattened variant is Vue's `vue`, which has no custom command |
| Catalog.CatalogCommands | src/index.ts:41-174 | exactly the variants `custom-create-vue`, `custom-nuxt`, `custom-svelte-kit` and `create-vite-extra` carry a custom command, with these command strings |
| Catalog.CreateCommandAt | src/index.ts:67 | the three `npm create` commands have the form `npm create <tool>@latest TARGET_DIR`, for the tools `vue`, `svelte` and `vite-extra` |
| Catalog.VariantRecord.constructor | src/index.ts:33-38 | a variant object holds the variant's name, label and custom command |
| Catalog.NewFlatCatalog | src/index.ts:365 | `FRAMEWORKS.flatMap((f) => f.variants)` yields one distinct object per variant, in order, holding that variant |
| Catalog.FindByAssignment | src/index.ts:368 | as written: a non-empty template renames the first object to the template and returns it, leaving the rest alone; an empty template renames every object to `""` and finds none |
| Catalog.SwcTemplates | src/index.ts:345 | of the catalog templates, exactly `react-swc` and `react-swc-ts` contain `-swc` |
| Catalog.ReactSwcStrip | src/index.ts:347 | `react-swc` becomes `react` |
| Catalog.ReactSwcTsStrip | src/index.ts:347 | `react-swc-ts` becomes `react-ts` |
| Catalog.ChosenTemplate | src/index.ts:340 | `variant || framework?.name || argTemplate`: `variant` when it is truthy; otherwise the framework's name when a framework with a non-empty name was chosen; otherwise `argTemplate`, as it is. The result is truthy exactly when one of the three is |
| Catalog.SwcStripped | src/index.ts:345-347 | a value without `-swc` is kept; otherwise its first `-swc` is cut out and the text on both sides kept |
| Catalog.ResolveTemplate | src/index.ts:340-348 | `isReactSwc` holds exactly when the chosen value (the first truthy of `variant`, `framework?.name`, else `argTemplate`) contains `-swc`; the template is that value with its first `-swc` cut out, or the value itself |
| TargetDirectory.IsEmpty | src/index.ts:480-481 | a directory that `isEmpty` accepts holds nothing but `.git` |
| TargetDirectory.IsEmptyOnlyGit | src/index.ts:469-482 | on a listing naming each entry once, `isEmpty` holds exactly when every entry is `.git` |
| TargetDirectory.KeepGit | src/index.ts:419-425 | the entries kept are exactly the `.git` ones, and no more than the listing had |
| TargetDirectory.KeepGitAppend | src/index.ts:419-425 | keeping `.git` entries distributes over concatenated listings |
| TargetDirectory.KeepGitValue | src/index.ts:419-425 | a listing without `.git` keeps nothing; one with `.git` keeps just `[".git"]` |
| TargetDirectory.EmptyDirLeavesEmpty | src/index.ts:469-482 | after `emptyDir`, the directory passes `isEmpty` |
| TargetDirectory.EmptyDirOnEmpty | src/index.ts:415-426 | `emptyDir` on a directory that `isEmpty` accepts changes nothing |
| TargetDirectory.RemoveEntry | src/index.ts:424 | `rmSync` of an entry leaves exactly the other entries |
| TargetDirectory.RemoveMiddle | src/index.ts:424 | removing an entry that occurs once leaves the entries before and after it |
| TargetDirectory.PendingStep | src/index.ts:419-425 | one turn of the loop skips `.git` and removes any other entry from the listing |
| TargetDirectory.FileSystem.Listing | src/index.ts:480 | the listing is present exactly when the directory exists, and is its entries |
| TargetDirectory.FileSystem.EmptyDir | src/index.ts:415-426 | a missing directory is left alone; otherwise its listing becomes its `.git` entries and no other directory changes |
| TargetDirectory.FileSystem.MakeDir | src/index.ts:336 | a missing directory is created empty; an existing one is left as it is |
| TargetDirectory.OverwriteGate | src/index.ts:235 | the overwrite question is skipped exactly for a missing or empty target; yes confirms and no declines (the checker at lines 243-249 then throws) |
| TargetDirectory.DirectoryAction | src/index.ts:330-337 | clear exactly when `overwrite` is true; create exactly when it is not and the root is missing |
| TargetDirectory.TargetOutcomes | src/index.ts:330-337 | a missing target is created, an empty one reused, a non-empty one cleared only on yes; whenever `init` goes on, the target exists and is empty |
| PackageManager.PkgFromUserAgent | src/index.ts:398-408 | `undefined` exactly for a falsy agent; the name, and the version when present, hold no space and no `/` |
| PackageManager.FirstToken | src/index.ts:402 | the first space-separated token is a space-free prefix of the agent, ended by a space or the end |
| PackageManager.NameField | src/index.ts:402-405 | the name is the agent's longest prefix without space or `/`; the version is present exactly when a `/` follows the name |
| PackageManager.VersionField | src/index.ts:406 | the version is the longest separator-free prefix of what follows the name's `/` |
| PackageManager.PackageManagerAgent | src/index.ts:356 | `pkgManager` is `npm` for a falsy agent; otherwise it is the agent's longest prefix holding no space and no `/` |
| PackageManager.YarnAgentName | src/index.ts:356 | an agent starting `yarn` followed by a separator or its end makes the package manager `yarn` |
| PackageManager.YarnWithoutVersionAgent | src/index.ts:358 | the agent makes `pkgInfo?.version.startsWith` fail exactly when it is `yarn` alone or starts with `yarn ` |
| PackageManager.IsYarn1 | src/index.ts:358 | `isYarn1` holds only for an agent naming `yarn`, and never without an agent; a yarn agent without a version is excluded, as the source throws there |
| PackageManager.IsYarn1Agent | src/index.ts:358 | `isYarn1` holds exactly when the agent starts with `yarn/1.` |
| PackageManager.ReplaceCreate | src/index.ts:376 | `.replace(/^npm create/, ...)` turns a leading `npm create` into `<pkgManager> create` (for a manager name without `$`) and keeps the rest of the command; any other command is unchanged |
| PackageManager.ReplaceLatest | src/index.ts:378 | the first `@latest` is cut out, with the text on both sides kept, for yarn 1.x; otherwise, and for a command without `@latest`, nothing changes |
| PackageManager.ExecRunner | src/index.ts:379-389 | the `npm exec` callback gives eight characters, and `npm exec` itself for a manager other than pnpm and yarn |
| PackageManager.ReplaceExec | src/index.ts:379-389 | `.replace(/^npm exec/, ...)` changes only the first eight characters, and only when they are `npm exec`, which become the runner |
| PackageManager.RewriteCommand | src/index.ts:375-389 | the three rewrites leave a command that starts with neither `npm create` nor `npm exec` and holds no `@latest` unchanged |
| PackageManager.CreateIsNotExec | src/index.ts:379 | a rewritten `create` command no longer starts with `npm exec`, so the last rewrite leaves it alone |
| PackageManager.CreateStep | src/index.ts:376 | the first rewrite of `npm create <tool>@latest<args>` gives `<pm> create <tool>@latest<args>` |
| PackageManager.LatestStep | src/index.ts:378 | the second rewrite drops or keeps the `@latest` after an `@`-free prefix |
| PackageManager.CreateCommandOutput | src/index.ts:375-389 | `npm create <tool>@latest<args>` becomes `<pm> create <tool>@latest<args>`, without `@latest` for yarn 1.x (`isYarn1` implies the manager is `yarn`) |
| PackageManager.ExecCommandOutput | src/index.ts:375-389 | `npm exec<args>` becomes `pnpm dlx<args>` for pnpm and `yarn dlx<args>` for yarn other than 1.x, and is unchanged otherwise |
| Scaffold.Ask | src/index.ts:210-321 | the questions get through exactly when none ends `init` (no cancel, and yes to the overwrite of an existing non-empty target). The target is the one the first question settles. The overwrite is asked only for an existing non-empty target. The package name is the reply exactly when the project name is not valid. The framework and variant are the replies exactly when `--template` is not a catalog template. A template is always chosen |
| Scaffold.ProjectName | src/index.ts:202 | `getProjectName()` is the working directory's base name for the target `.`, and the target itself otherwise |
| Scaffold.TemplateGiven | src/index.ts:279 | the framework question is skipped exactly when `--template` is truthy and one of `TEMPLATES` (`Catalog.Templates`) |
| Scaffold.PromptedTargetDir | src/index.ts:196-228 | a truthy formatted command-line target is used and the question skipped. Otherwise a cancel ends `init`, an answer that formats to nothing gives `vite-project`, and any other answer is used as formatted. The result is never empty and never ends in `/` |
| Scaffold.OrDefault | src/index.ts:226 | the formatted answer, or `defaultTargetDir` when it is falsy, is non-empty and does not end in `/` |
| Scaffold.AskProjectName | src/index.ts:196-228 | the question step settles exactly the target directory `Scaffold.PromptedTargetDir` describes |
| Scaffold.AskPackageName | src/index.ts:261-275 | the question is asked exactly when the project name is not a valid package name; the answer, when given, is valid |
| Scaffold.AskTemplate | src/index.ts:277-310 | the framework and variant questions are skipped exactly for a catalog `--template`; otherwise a cancel of either ends `init`; a template is always chosen |
| Scaffold.PrepareTarget | src/index.ts:330-337 | the target ends up existing and empty: created when missing, cleared to its `.git` on overwrite, and otherwise untouched; nothing else changes |
| Scaffold.Init | src/index.ts:191-391 | `init` stops early exactly when a question ends it, and then writes nothing. Otherwise the target is the one the first question settles, it exists and is empty, and only it changed. `init` fails exactly for a versionless yarn agent. The package name is the reply when asked. The template is the chosen value (`--template`, or the framework and variant replies) with its first `-swc` cut out. No custom command is ever found |
| Scaffold.Decide | src/index.ts:340-390 | for every chosen value, the template is that value with its first `-swc` cut out and `isReactSwc` says whether it had one. The package manager and `isYarn1` are taken from the agent. The TypeError of line 358 happens exactly for a versionless yarn. No custom command is found |
| Scaffold.LookUpCommand | src/index.ts:365-390 | as written, the lookup finds no custom command and no rewritten command for any template |
| Scaffold.IntendedCommand | src/index.ts:363-390 | with the equality lookup, a command is found only for a catalog template |
| Scaffold.IntendedCatalogCommand | src/index.ts:363 | with the equality lookup, a catalog template's command is its own variant's command, rewritten |
| Scaffold.CreateTargetRewrite | src/index.ts:375-389 | `npm create <tool>@latest TARGET_DIR` becomes `<pm> create <tool>@latest TARGET_DIR`, without `@latest` for yarn 1.x |
| Scaffold.IntendedCreate | src/index.ts:374-390 | with the equality lookup, `custom-create-vue`, `custom-svelte-kit` and `create-vite-extra` run the package manager's own `create` of their tool, with `@latest` unless yarn 1.x |
| Scaffold.NuxtRewrite | src/index.ts:379-389 | `npm exec nuxi init TARGET_DIR` runs `nuxi` through `pnpm dlx`, `yarn dlx` or `npm exec` |
| Scaffold.IntendedNuxt | src/index.ts:374-390 | with the equality lookup, `custom-nuxt` gives `<runner> nuxi init TARGET_DIR` |
| Scaffold.IntendedNoCommand | src/index.ts:372-374 | with the equality lookup, every other catalog template has no custom command |

## Left out

- Prompt rendering, colours, messages, `console.log` and the `async` flow are not modelled. Each prompt's outcome is an input to `Scaffold.Init`: an answer, or a cancel.
- `minimist` is not modelled. `argv._[0]` and `argv.template || argv.t` are inputs to `Scaffold.Init`, and so are `path.basename(path.resolve())` and `npm_config_user_agent`.
- The project-name prompt's `onState` callback is modelled on the final answer only. Intermediate keystrokes are not modelled.
- Scaffold.Ask: requires that an answered package name passes `isValidPackageName`. The prompt's `validate` hook keeps asking until it does, and the re-asking is not modelled.
- Scaffold.Ask: requires that an answered framework has a non-empty name. The select offers only catalog frameworks (`Catalog.FrameworkNamesNonEmpty`).
- Scaffold.Init: carries the same two requirements on the replies as `Scaffold.Ask`.
- The variant select for a framework without variants offers no choices. Its reply is modelled as `Answer(None)`.
- The filesystem is modelled as a map from a directory path to its listing.
  - File contents, nested directories and parent creation by `mkdirSync(..., { recursive: true })` are not modelled.
  - `existsSync(targetDir)` and `path.join(cwd, targetDir)` are treated as naming the same directory. Path resolution is not modelled.
- TargetDirectory.FileSystem.EmptyDir: removing an entry removes its listing entry only. What `rmSync` does recursively below that entry is not modelled.
- JsText.ToLower: lower-cases ASCII letters only. Full Unicode case mapping is not modelled.
- JsText.IsSpace follows the ECMAScript whitespace and line-terminator set. Strings are sequences of characters, so UTF-16 surrogate pairs are not modelled.
- The TypeError at `src/index.ts:358` (a yarn agent without a version) is modelled as the `Failed` outcome of `Scaffold.Init`. The rejection that `init().catch` logs is not modelled.
- Running the rewritten command, substituting `TARGET_DIR` and copying template files are not modelled, because the code does none of them.
- Catalog.NewFlatCatalog: makes fresh variant objects. In the source, `FRAMEWORKS.flatMap((f) => f.variants)` returns the catalog's own objects, so the rename at `src/index.ts:368` also renames `FRAMEWORKS[1].variants[0]`. Nothing later in `init` reads `FRAMEWORKS`, so the outcome of `Scaffold.Init` is the same.
- A target that exists but is not a directory is not modelled, because the filesystem is a map of directory listings. In the source, `readdirSync` then throws inside the overwrite question (`src/index.ts:235`, `src/index.ts:480`), and the `catch` at `src/index.ts:318` ends `init`.

## Findings

| source | as written | input that shows it | evidently intended | confidence | as-written member | corrected member |
|---|---|---|---|---|---|---|
| src/index.ts:368 | `FRAMEWORKSFlat.find((v) => (v.name = template))` assigns `template` to the first variant's `name` and, for a non-empty template, returns that variant (Vue's `vue`, which has no custom command). No custom command is ever found, and the first variant object is renamed | `--template custom-create-vue` run under pnpm: `customCommand` is `undefined`, not `npm create vue@latest TARGET_DIR` | compare with `v.name === template`, as in the commented-out line 363, so the template's own variant and command are found | not executed | Catalog.FindByAssignment, Scaffold.LookUpCommand | Catalog.FindByName, Scaffold.IntendedCommand (with Scaffold.IntendedCreate, Scaffold.IntendedNuxt, Scaffold.IntendedNoCommand) |
