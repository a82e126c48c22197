/** The template catalog of the scaffolder (src/index.ts, `FRAMEWORKS`, `TEMPLATES`),
    the choice of the template from the answers, and the lookup of the chosen
    template's custom command, both as the source writes it (an assignment inside
    `find`) and as an equality lookup. */
module Catalog {
  import opened JsText

  /** A framework variant; the display colour is not modelled. */
  datatype Variant = Variant(name: string, display: string, customCommand: Option<string>)

  /** A framework with its variants, in declaration order. */
  datatype Framework = Framework(name: string, display: string, variants: seq<Variant>)

  /** The variants of each framework of `FRAMEWORKS`. */
  const VueVariants: seq<Variant> := [
    Variant("vue", "JavaScript", None),
    Variant("vue-ts", "TypeScript", None),
    Variant("custom-create-vue", "Customize with create-vue \U{2197}", Some("npm create vue@latest TARGET_DIR")),
    Variant("custom-nuxt", "Nuxt \U{2197}", Some("npm exec nuxi init TARGET_DIR"))
  ]
  const ReactVariants: seq<Variant> := [
    Variant("react", "JavaScript", None),
    Variant("react-ts", "TypeScript", None),
    Variant("react-swc", "JavaScript + SWC", None),
    Variant("react-swc-ts", "TypeScript + SWC", None)
  ]
  const PreactVariants: seq<Variant> := [
    Variant("preact", "JavaScript", None),
    Variant("preact-ts", "TypeScript", None)
  ]
  const LitVariants: seq<Variant> := [
    Variant("lit", "JavaScript", None),
    Variant("lit-ts", "TypeScript", None)
  ]
  const SvelteVariants: seq<Variant> := [
    Variant("svelte", "JavaScript", None),
    Variant("svelte-ts", "TypeScript", None),
    Variant("custom-svelte-kit", "SvelteKit \U{2197}", Some("npm create svelte@latest TARGET_DIR"))
  ]
  const OthersVariants: seq<Variant> := [
    Variant("create-vite-extra", "create-vite-extra \U{2197}", Some("npm create vite-extra@latest TARGET_DIR"))
  ]

  /** `FRAMEWORKS` */
  const Frameworks: seq<Framework> := [
    Framework("vanilla", "Vanilla", []),
    Framework("vue", "Vue", VueVariants),
    Framework("react", "React", ReactVariants),
    Framework("preact", "Preact", PreactVariants),
    Framework("lit", "Lit", LitVariants),
    Framework("svelte", "Svelte", SvelteVariants),
    Framework("others", "Others", OthersVariants)
  ]

  /** The variant names, in order. */
  function Names(vs: seq<Variant>): (names: seq<string>)
    ensures |names| == |vs|
    ensures forall i :: 0 <= i < |vs| ==> names[i] == vs[i].name
  {
    if vs == [] then [] else [vs[0].name] + Names(vs[1..])
  }

  /** `FRAMEWORKS.map((f) => (f.variants && f.variants.map((v) => v.name)) || [f.name])`.
      An array is truthy in JavaScript even when it is empty, so the fallback
      `[f.name]` is never taken: a framework without variants contributes nothing. */
  function MapVariantNames(fs: seq<Framework>): (names: seq<seq<string>>)
    ensures |names| == |fs|
    ensures forall i :: 0 <= i < |fs| ==> names[i] == Names(fs[i].variants)
  {
    if fs == [] then [] else [Names(fs[0].variants)] + MapVariantNames(fs[1..])
  }

  /** `.reduce((a, b) => a.concat(b), acc)`: a left fold. */
  function ConcatAll(acc: seq<string>, xss: seq<seq<string>>): seq<string>
    decreases |xss|
  {
    if xss == [] then acc else ConcatAll(acc + xss[0], xss[1..])
  }

  /** `TEMPLATES`: the 16 variant names, in declaration order. */
  function Templates(): (names: seq<string>)
    ensures names == TemplateNames
  {
    TemplatesAreFlatNames([], Frameworks);
    assert [] + Names(FlatVariants(Frameworks)) == Names(FlatVariants(Frameworks));
    FlatNames();
    ConcatAll([], MapVariantNames(Frameworks))
  }

  /** `fs.flatMap((f) => f.variants)` */
  function FlatVariants(fs: seq<Framework>): seq<Variant>
  {
    if fs == [] then [] else fs[0].variants + FlatVariants(fs[1..])
  }

  /** The flattened list holds every variant of every framework, and nothing else. */
  lemma {:induction false} FlatVariantsMembers(fs: seq<Framework>, v: Variant)
    ensures v in FlatVariants(fs) <==> exists i :: 0 <= i < |fs| && v in fs[i].variants
    decreases |fs|
  {
    if fs != [] {
      FlatVariantsMembers(fs[1..], v);
      if exists i :: 1 <= i < |fs| && v in fs[i].variants {
        var i :| 1 <= i < |fs| && v in fs[i].variants;
        assert fs[1..][i - 1] == fs[i];
      }
      if exists i :: 0 <= i < |fs[1..]| && v in fs[1..][i].variants {
        var i :| 0 <= i < |fs[1..]| && v in fs[1..][i].variants;
        assert fs[1..][i] == fs[i + 1];
      }
    }
  }

  lemma {:induction false} NamesAppend(a: seq<Variant>, b: seq<Variant>)
    ensures Names(a + b) == Names(a) + Names(b)
  {
  }

  /** For any catalog, the map/reduce of `TEMPLATES` lists the names of the flattened
      variants: every framework's variant names, in declaration order. */
  lemma {:induction false} TemplatesAreFlatNames(acc: seq<string>, fs: seq<Framework>)
    ensures ConcatAll(acc, MapVariantNames(fs)) == acc + Names(FlatVariants(fs))
    decreases |fs|
  {
    if fs != [] {
      var head := Names(fs[0].variants);
      var m := MapVariantNames(fs);
      assert m[0] == head && m[1..] == MapVariantNames(fs[1..]) by {
        assert m == [head] + MapVariantNames(fs[1..]);
      }
      assert ConcatAll(acc, m) == ConcatAll(acc + head, MapVariantNames(fs[1..]));
      TemplatesAreFlatNames(acc + head, fs[1..]);
      NamesAppend(fs[0].variants, FlatVariants(fs[1..]));
      AppendAssoc(acc, head, Names(FlatVariants(fs[1..])));
    }
  }

  /** The flattened catalog, spelled out. */
  lemma FlatCatalog()
    ensures FlatVariants(Frameworks)
            == VueVariants + (ReactVariants + (PreactVariants + (LitVariants + (SvelteVariants + OthersVariants))))
  {
    var fs := Frameworks;
    assert fs[6..][1..] == [];
    assert FlatVariants(fs[6..]) == OthersVariants + [];
    assert fs[5..][1..] == fs[6..];
    assert FlatVariants(fs[5..]) == SvelteVariants + FlatVariants(fs[6..]);
    assert fs[4..][1..] == fs[5..];
    assert FlatVariants(fs[4..]) == LitVariants + FlatVariants(fs[5..]);
    assert fs[3..][1..] == fs[4..];
    assert FlatVariants(fs[3..]) == PreactVariants + FlatVariants(fs[4..]);
    assert fs[2..][1..] == fs[3..];
    assert FlatVariants(fs[2..]) == ReactVariants + FlatVariants(fs[3..]);
    assert fs[1..][1..] == fs[2..];
    assert FlatVariants(fs[1..]) == VueVariants + FlatVariants(fs[2..]);
    assert FlatVariants(fs) == [] + FlatVariants(fs[1..]);
  }

  /** The 16 variant names of the catalog, in declaration order. */
  const TemplateNames: seq<string> := [
    "vue", "vue-ts", "custom-create-vue", "custom-nuxt",
    "react", "react-ts", "react-swc", "react-swc-ts",
    "preact", "preact-ts", "lit", "lit-ts",
    "svelte", "svelte-ts", "custom-svelte-kit", "create-vite-extra"]

  /** Each framework's variant names are its stretch of the 16 names. */
  lemma VueReactNames()
    ensures Names(VueVariants) == TemplateNames[..4]
    ensures Names(ReactVariants) == TemplateNames[4..8]
  {
  }

  lemma PreactLitNames()
    ensures Names(PreactVariants) == TemplateNames[8..10]
    ensures Names(LitVariants) == TemplateNames[10..12]
  {
  }

  lemma SvelteOthersNames()
    ensures Names(SvelteVariants) == TemplateNames[12..15]
    ensures Names(OthersVariants) == TemplateNames[15..]
  {
  }

  /** The flattened catalog's names are the 16 names above. */
  lemma FlatNames()
    ensures Names(FlatVariants(Frameworks)) == TemplateNames
  {
    FlatCatalog();
    var e := SvelteVariants + OthersVariants;
    var d := LitVariants + e;
    var c := PreactVariants + d;
    var b := ReactVariants + c;
    NamesAppend(SvelteVariants, OthersVariants);
    NamesAppend(LitVariants, e);
    NamesAppend(PreactVariants, d);
    NamesAppend(ReactVariants, c);
    NamesAppend(VueVariants, b);
    VueReactNames();
    PreactLitNames();
    SvelteOthersNames();
    var t := TemplateNames;
    SliceJoin(t, 12, 15);
    SliceJoin(t, 10, 12);
    SliceJoin(t, 8, 10);
    SliceJoin(t, 4, 8);
    SliceJoin(t, 0, 4);
    assert t[0..4] == t[..4] && t[0..] == t;
  }

  /** Two adjacent slices make up the longer one. */
  lemma SliceJoin<T>(s: seq<T>, i: nat, j: nat)
    requires i <= j <= |s|
    ensures s[i..] == s[i..j] + s[j..]
  {
  }

  /** `TEMPLATES` has 16 entries; `"vanilla"`, a framework without variants, is not
      among them, and no name appears twice. */
  lemma TemplatesFacts()
    ensures |Templates()| == 16
    ensures "vanilla" !in Templates()
    ensures Distinct(Templates())
  {
    TemplateNamesDistinct();
  }

  lemma TemplateNamesDistinct()
    ensures Distinct(TemplateNames)
  {
  }

  /** Every framework offered by the framework prompt has a non-empty (truthy) name. */
  lemma FrameworkNamesNonEmpty(f: Framework)
    requires f in Frameworks
    ensures f.name != ""
  {
  }

  /** `find((v) => v.name === template)` on the flattened variants: the first variant
      with that name, or nothing. This is the equality lookup the assignment at
      src/index.ts:368 evidently stands for; the scaffolder as written does not use it. */
  function FindByName(vs: seq<Variant>, template: string): (r: Option<Variant>)
    ensures r.None? <==> forall i :: 0 <= i < |vs| ==> vs[i].name != template
    ensures r.Some? ==> r.value in vs && r.value.name == template
  {
    if vs == [] then None
    else if vs[0].name == template then Some(vs[0])
    else FindByName(vs[1..], template)
  }

  /** The equality lookup returns the FIRST variant with the name. */
  lemma {:induction false} FindByNameFirst(vs: seq<Variant>, template: string, k: nat)
    requires k < |vs| && vs[k].name == template
    requires forall j :: 0 <= j < k ==> vs[j].name != template
    ensures FindByName(vs, template) == Some(vs[k])
  {
    if k > 0 {
      FindByNameFirst(vs[1..], template, k - 1);
    }
  }

  /** Because no name appears twice, the equality lookup finds each variant by its name. */
  lemma {:induction false} FindByNameUnique(vs: seq<Variant>, i: nat)
    requires Distinct(Names(vs)) && i < |vs|
    ensures FindByName(vs, vs[i].name) == Some(vs[i])
  {
    forall j | 0 <= j < i ensures vs[j].name != vs[i].name {
      assert Names(vs)[j] == vs[j].name && Names(vs)[i] == vs[i].name;
    }
    FindByNameFirst(vs, vs[i].name, i);
  }

  /** With the equality lookup, every catalog template finds its own variant. */
  lemma FindByNameCatalog(i: nat)
    requires i < |TemplateNames|
    ensures |FlatVariants(Frameworks)| == |TemplateNames|
    ensures FindByName(FlatVariants(Frameworks), TemplateNames[i]) == Some(FlatVariants(Frameworks)[i])
  {
    var vs := FlatVariants(Frameworks);
    FlatNames();
    assert Distinct(Names(vs)) by {
      FlatNames();
      TemplateNamesDistinct();
    }
    assert vs[i].name == TemplateNames[i] by {
      FlatNames();
    }
    FindByNameUnique(vs, i);
  }

  /** The equality lookup finds nothing for a name outside the catalog. */
  lemma FindByNameCatalogOnly(template: string)
    ensures FindByName(FlatVariants(Frameworks), template).Some? ==> template in TemplateNames
  {
    var vs := FlatVariants(Frameworks);
    if FindByName(vs, template).Some? {
      var i :| 0 <= i < |vs| && vs[i] == FindByName(vs, template).value;
      FlatNames();
      assert Names(vs)[i] == template;
    }
  }

  /** With the equality lookup, `custom-create-vue` finds its command. */
  lemma FindByNameCustomCommand()
    ensures FindByName(FlatVariants(Frameworks), "custom-create-vue").Some?
    ensures FindByName(FlatVariants(Frameworks), "custom-create-vue").value.customCommand
            == Some("npm create vue@latest TARGET_DIR")
  {
    assert |FlatVariants(Frameworks)| == 16 && FlatVariants(Frameworks)[2] == Frameworks[1].variants[2] by {
      FlatCatalog();
    }
    FindByNameCatalog(2);
  }

  /** The first flattened variant, the one the lookup at src/index.ts:368 always
      returns for a non-empty template, is Vue's `vue` and has no custom command. */
  lemma FirstFlatVariant()
    ensures |FlatVariants(Frameworks)| == 16
    ensures FlatVariants(Frameworks)[0] == Variant("vue", "JavaScript", None)
  {
    FlatCatalog();
  }

  /** Four catalog variants carry a custom command: `custom-create-vue`, `custom-nuxt`,
      `custom-svelte-kit` and `create-vite-extra`, at these places of the flattened list. */
  lemma CatalogCommands()
    ensures var vs := FlatVariants(Frameworks);
            && |vs| == 16
            && vs[2].customCommand == Some("npm create vue@latest TARGET_DIR")
            && vs[3].customCommand == Some("npm exec nuxi init TARGET_DIR")
            && vs[14].customCommand == Some("npm create svelte@latest TARGET_DIR")
            && vs[15].customCommand == Some("npm create vite-extra@latest TARGET_DIR")
            && forall i :: 0 <= i < 16 && i != 2 && i != 3 && i != 14 && i != 15 ==> vs[i].customCommand.None?
  {
    FlatCatalog();
  }

  /** The three `npm create` command strings, cut at the tool name. */
  lemma CreateVueSplit()
    ensures "npm create vue@latest TARGET_DIR" == "npm create " + "vue" + "@latest TARGET_DIR"
  {
  }

  lemma CreateSvelteSplit()
    ensures "npm create svelte@latest TARGET_DIR" == "npm create " + "svelte" + "@latest TARGET_DIR"
  {
  }

  lemma CreateViteExtraSplit()
    ensures "npm create vite-extra@latest TARGET_DIR" == "npm create " + "vite-extra" + "@latest TARGET_DIR"
  {
  }

  /** The three `npm create` commands of the catalog, each `npm create <tool>@latest
      TARGET_DIR`. */
  lemma CreateCommandAt(i: nat, tool: string)
    requires (i == 2 && tool == "vue") || (i == 14 && tool == "svelte") || (i == 15 && tool == "vite-extra")
    ensures |FlatVariants(Frameworks)| == 16
    ensures FlatVariants(Frameworks)[i].customCommand == Some("npm create " + tool + "@latest TARGET_DIR")
  {
    if i == 2 {
      CreateVueSplit();
    } else if i == 14 {
      CreateSvelteSplit();
    } else {
      CreateViteExtraSplit();
    }
    CatalogCommands();
  }

  /** A catalog variant as a mutable JavaScript object: the `find` callback at
      src/index.ts:368 writes its `name`. */
  class VariantRecord {
    var name: string
    const display: string
    const customCommand: Option<string>

    constructor (v: Variant)
      ensures name == v.name && display == v.display && customCommand == v.customCommand
    {
      name := v.name;
      display := v.display;
      customCommand := v.customCommand;
    }

    /** The record's current contents as a value. */
    function Value(): Variant
      reads this
    {
      Variant(name, display, customCommand)
    }
  }

  /** The variant objects of `FRAMEWORKS`, as `FRAMEWORKS.flatMap((f) => f.variants)`
      (src/index.ts:365) lists them: one distinct object per variant, in order. */
  method NewFlatCatalog() returns (flat: seq<VariantRecord>)
    ensures |flat| == |FlatVariants(Frameworks)|
    ensures forall i :: 0 <= i < |flat| ==> fresh(flat[i]) && flat[i].Value() == FlatVariants(Frameworks)[i]
    ensures forall i, j :: 0 <= i < j < |flat| ==> flat[i] != flat[j]
  {
    var vs := FlatVariants(Frameworks);
    flat := [];
    var i := 0;
    while i < |vs|
      invariant 0 <= i <= |vs| && |flat| == i
      invariant forall j :: 0 <= j < i ==> fresh(flat[j]) && flat[j].Value() == vs[j]
      invariant forall j, k :: 0 <= j < k < i ==> flat[j] != flat[k]
    {
      var r := new VariantRecord(vs[i]);
      flat := flat + [r];
      i := i + 1;
    }
  }

  /** `FRAMEWORKSFlat.find((v) => (v.name = template))` as written (src/index.ts:368):
      the callback ASSIGNS `template` to each visited variant's `name` and its value,
      `template`, decides the match. A non-empty template therefore matches the first
      variant after renaming it and leaves the others alone; an empty template renames
      every variant to `""` and matches none. */
  method FindByAssignment(flat: seq<VariantRecord>, template: string) returns (found: Option<VariantRecord>)
    requires forall i, j :: 0 <= i < j < |flat| ==> flat[i] != flat[j]
    modifies set v | v in flat
    ensures template != "" && flat != [] ==> found == Some(flat[0]) && flat[0].name == template
    ensures template != "" ==> forall i :: 1 <= i < |flat| ==> flat[i].name == old(flat[i].name)
    ensures template == "" || flat == [] ==> found == None
    ensures template == "" ==> forall i :: 0 <= i < |flat| ==> flat[i].name == ""
  {
    var i := 0;
    while i < |flat|
      invariant 0 <= i <= |flat|
      invariant i > 0 ==> template == ""
      invariant forall j :: 0 <= j < i ==> flat[j].name == template
      invariant forall j :: i <= j < |flat| ==> flat[j].name == old(flat[j].name)
    {
      flat[i].name := template;
      if template != "" {
        return Some(flat[i]);
      }
      i := i + 1;
    }
    return None;
  }

  /** `variant || framework?.name || argTemplate` (src/index.ts:340): the first truthy
      one of the three, and otherwise `argTemplate` as it is. */
  function ChosenTemplate(variant: Option<string>, framework: Option<Framework>, argTemplate: Option<string>)
    : (chosen: Option<string>)
    ensures chosen == variant || chosen == argTemplate
            || (framework.Some? && chosen == Some(framework.value.name))
    ensures Truthy(chosen) <==> Truthy(variant) || (framework.Some? && framework.value.name != "")
                                || Truthy(argTemplate)
    ensures Truthy(variant) ==> chosen == variant
    ensures !Truthy(variant) && framework.Some? && framework.value.name != "" ==>
              chosen == Some(framework.value.name)
    ensures !Truthy(variant) && !(framework.Some? && framework.value.name != "") ==> chosen == argTemplate
  {
    if Truthy(variant) then variant
    else if framework.Some? && framework.value.name != "" then Some(framework.value.name)
    else argTemplate
  }

  /** An occurrence of `-swc` puts a `w` two places on. */
  lemma {:induction false} SwcNeedsW(t: string)
    ensures Contains(t, "-swc") ==> 'w' in t
  {
    if Contains(t, "-swc") {
      var k := IndexOf(t, "-swc").value;
      assert t[k + 2] == t[k..k + 4][2];
    }
  }

  /** `react-swc` loses its `-swc` and becomes `react`. */
  lemma ReactSwcStrip()
    ensures ReplaceFirst("react-swc", "-swc", "") == "react"
  {
    assert "react-swc" == "react" + "-swc";
    ReplaceFirstShift("react", "-swc", "-swc", "");
  }

  /** `react-swc-ts` loses its `-swc` and becomes `react-ts`. */
  lemma ReactSwcTsStrip()
    ensures ReplaceFirst("react-swc-ts", "-swc", "") == "react-ts"
  {
    ReactSwcTsSplit();
    ReplaceFirstShift("react", "-swc" + "-ts", "-swc", "");
    ReplaceFirstHead("-swc", "-ts", "");
  }

  /** `react-swc-ts` and `react-ts`, cut at the `-swc`. */
  lemma ReactSwcTsSplit()
    ensures "react-swc-ts" == "react" + ("-swc" + "-ts")
    ensures "react-ts" == "react" + ("" + "-ts")
  {
  }

  /** Of the catalog templates, only the two SWC ones contain a `w`. */
  lemma OnlySwcHasW(t: string)
    requires t in TemplateNames
    ensures 'w' in t <==> t == "react-swc" || t == "react-swc-ts"
  {
  }

  /** Of the catalog templates, only the two SWC ones contain `-swc`. */
  lemma {:induction false} SwcTemplates(t: string)
    requires t in TemplateNames
    ensures Contains(t, "-swc") <==> t == "react-swc" || t == "react-swc-ts"
  {
    SwcNeedsW(t);
    OnlySwcHasW(t);
    if t == "react-swc" {
      ReactSwcStrip();
    } else if t == "react-swc-ts" {
      ReactSwcTsStrip();
    }
  }

  /** The template that the chosen value names: the value with its first `-swc` cut
      out, or the value itself when it has none. */
  function SwcStripped(chosen: string): (template: string)
    ensures !Contains(chosen, "-swc") ==> template == chosen
    ensures Contains(chosen, "-swc") ==> var k := IndexOf(chosen, "-swc").value;
              template == chosen[..k] + chosen[k + 4..]
  {
    if Contains(chosen, "-swc") then
      ReplaceFirstAtIndexOf(chosen, "-swc", "");
      var k := IndexOf(chosen, "-swc").value;
      assert chosen[..k] + "" == chosen[..k];
      ReplaceFirst(chosen, "-swc", "")
    else chosen
  }

  /** Template resolution (src/index.ts:340-348): `template` starts as the chosen value;
      if it contains `-swc`, `isReactSwc` is set and the first `-swc` is cut out. */
  method ResolveTemplate(variant: Option<string>, framework: Option<Framework>, argTemplate: Option<string>)
    returns (template: string, isReactSwc: bool)
    requires ChosenTemplate(variant, framework, argTemplate).Some?
    ensures var chosen := ChosenTemplate(variant, framework, argTemplate).value;
            && (isReactSwc <==> Contains(chosen, "-swc"))
            && template == SwcStripped(chosen)
  {
    template := ChosenTemplate(variant, framework, argTemplate).value;
    isReactSwc := false;
    if Contains(template, "-swc") {
      isReactSwc := true;
      template := ReplaceFirst(template, "-swc", "");
    }
  }
}
