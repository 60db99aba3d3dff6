/**
 * The bundler's output naming: `manualChunks`, which puts each module id
 * into a named chunk by a first-match-wins chain of substring tests, and
 * `assetFileNames`, which names an emitted asset after the last
 * `.`-separated segment of its file name.
 */
module ViteConfig {
  import opened Wrappers
  import opened Text

  /** `manualChunks(id)` as written; `None` is the `undefined` it returns when no test matches. */
  function ManualChunks(id: string): Option<string> {
    if Includes(id, "react") || Includes(id, "react-dom") then Some("react-core")
    else if Includes(id, "react-router-dom") then Some("router")
    else if Includes(id, "@radix-ui") || Includes(id, "lucide-react") then Some("ui-components")
    else if Includes(id, "framer-motion") then Some("animations")
    else if Includes(id, "clsx") || Includes(id, "class-variance-authority") || Includes(id, "tailwind-merge") then Some("utils")
    else if Includes(id, "tailwindcss") || Includes(id, "tailwindcss-animate") then Some("styling")
    else if Includes(id, "/pages/HomePage") then Some("page-home")
    else if Includes(id, "/pages/AboutPage") then Some("page-about")
    else if Includes(id, "/pages/ProjectsPage") then Some("page-projects")
    else if Includes(id, "/pages/ContactPage") then Some("page-contact")
    else if Includes(id, "/pages/NotFoundPage") then Some("page-404")
    else if Includes(id, "/components/layout/") then Some("layout")
    else if Includes(id, "/components/") && !Includes(id, "/components/layout/") then Some("components")
    else if Includes(id, "/lib/") then Some("lib")
    else if Includes(id, "node_modules") then Some("vendor")
    else None
  }

  /** One test of the classifier: an id including `pattern` goes to `chunk`. */
  datatype Rule = Rule(pattern: string, chunk: string)

  /**
   * The classifier as a table, with the tests that can never decide left
   * out: `react-dom`, `react-router-dom` and `lucide-react` all include
   * `react`, `tailwindcss-animate` includes `tailwindcss`, and the layout
   * exclusion of the components test is settled by the rule before it.
   */
  const Rules: seq<Rule> := [
    Rule("react", "react-core"),
    Rule("@radix-ui", "ui-components"),
    Rule("framer-motion", "animations"),
    Rule("clsx", "utils"),
    Rule("class-variance-authority", "utils"),
    Rule("tailwind-merge", "utils"),
    Rule("tailwindcss", "styling"),
    Rule("/pages/HomePage", "page-home"),
    Rule("/pages/AboutPage", "page-about"),
    Rule("/pages/ProjectsPage", "page-projects"),
    Rule("/pages/ContactPage", "page-contact"),
    Rule("/pages/NotFoundPage", "page-404"),
    Rule("/components/layout/", "layout"),
    Rule("/components/", "components"),
    Rule("/lib/", "lib"),
    Rule("node_modules", "vendor")
  ]

  /** The chunk of the first rule whose pattern `id` includes. */
  function FirstMatch(rules: seq<Rule>, id: string): Option<string> {
    if rules == [] then None
    else if Includes(id, rules[0].pattern) then Some(rules[0].chunk)
    else FirstMatch(rules[1..], id)
  }

  /** Rule `k` is the first that `id` matches; `k == |rules|` when it matches none. */
  predicate FirstHit(rules: seq<Rule>, id: string, k: nat) {
    && k <= |rules|
    && (k < |rules| ==> Includes(id, rules[k].pattern))
    && forall j :: 0 <= j < k ==> !Includes(id, rules[j].pattern)
  }

  /** The first rule that `id` matches decides its chunk, whatever later rules it also matches; with no match there is no chunk. */
  lemma {:induction false} FirstMatchAt(rules: seq<Rule>, id: string, k: nat)
    requires FirstHit(rules, id, k)
    ensures FirstMatch(rules, id) == if k < |rules| then Some(rules[k].chunk) else None
  {
    if k > 0 {
      assert !Includes(id, rules[0].pattern);
      assert FirstHit(rules[1..], id, k - 1) by {
        forall j | 0 <= j < k - 1 ensures !Includes(id, rules[1..][j].pattern) {
          assert rules[1..][j] == rules[j + 1];
        }
        if k < |rules| {
          assert rules[1..][k - 1] == rules[k];
        }
      }
      FirstMatchAt(rules[1..], id, k - 1);
    }
  }

  /** Every id has a first hit. */
  lemma {:induction false} FirstKey(rules: seq<Rule>, id: string)
    ensures exists k: nat :: FirstHit(rules, id, k)
  {
    if rules == [] || Includes(id, rules[0].pattern) {
      assert FirstHit(rules, id, 0);
    } else {
      FirstKey(rules[1..], id);
      var k: nat :| FirstHit(rules[1..], id, k);
      forall j | 0 <= j < k + 1 ensures !Includes(id, rules[j].pattern) {
        if j > 0 {
          assert rules[j] == rules[1..][j - 1];
        }
      }
      if k < |rules| - 1 {
        assert rules[k + 1] == rules[1..][k];
      }
      assert FirstHit(rules, id, k + 1);
    }
  }

  /** The tests that can never decide: each pattern includes an earlier one. */
  lemma ShadowedPatterns(id: string)
    ensures Includes(id, "react-dom") ==> Includes(id, "react")
    ensures Includes(id, "react-router-dom") ==> Includes(id, "react")
    ensures Includes(id, "lucide-react") ==> Includes(id, "react")
    ensures Includes(id, "tailwindcss-animate") ==> Includes(id, "tailwindcss")
    ensures Includes(id, "/components/layout/") ==> Includes(id, "/components/")
  {
    assert OccursAt("react-dom", "react", 0);
    assert OccursAt("react-router-dom", "react", 0);
    assert OccursAt("lucide-react", "react", 7);
    assert OccursAt("tailwindcss-animate", "tailwindcss", 0);
    assert OccursAt("/components/layout/", "/components/", 0);
    if Includes(id, "react-dom") {
      IncludesTransitive(id, "react-dom", "react");
    }
    if Includes(id, "react-router-dom") {
      IncludesTransitive(id, "react-router-dom", "react");
    }
    if Includes(id, "lucide-react") {
      IncludesTransitive(id, "lucide-react", "react");
    }
    if Includes(id, "tailwindcss-animate") {
      IncludesTransitive(id, "tailwindcss-animate", "tailwindcss");
    }
    if Includes(id, "/components/layout/") {
      IncludesTransitive(id, "/components/layout/", "/components/");
    }
  }

  /** Evaluating the table one rule at a time. */
  lemma FirstMatchStep(rules: seq<Rule>, id: string, k: nat)
    requires k < |rules|
    ensures FirstMatch(rules[k..], id)
         == if Includes(id, rules[k].pattern) then Some(rules[k].chunk) else FirstMatch(rules[k + 1..], id)
  {
    assert rules[k..][1..] == rules[k + 1..];
  }

  /** Past the library rules, the chain as written and the table agree on the rest. */
  lemma ManualChunksApplicationRules(id: string)
    requires !LibraryId(id)
    ensures ManualChunks(id) == FirstMatch(Rules[7..], id)
  {
    ShadowedPatterns(id);
    FirstMatchStep(Rules, id, 7);
    if !Includes(id, "/pages/HomePage") {
      FirstMatchStep(Rules, id, 8);
      if !Includes(id, "/pages/AboutPage") {
        FirstMatchStep(Rules, id, 9);
        if !Includes(id, "/pages/ProjectsPage") {
          FirstMatchStep(Rules, id, 10);
          if !Includes(id, "/pages/ContactPage") {
            FirstMatchStep(Rules, id, 11);
            if !Includes(id, "/pages/NotFoundPage") {
              ManualChunksComponentRules(id);
            }
          }
        }
      }
    }
  }

  /** Past the library and page rules, the chain as written and the table agree on the rest. */
  lemma ManualChunksComponentRules(id: string)
    requires !LibraryId(id) && !PageId(id)
    ensures ManualChunks(id) == FirstMatch(Rules[12..], id)
  {
    ShadowedPatterns(id);
    assert Rules[16..] == [];
    FirstMatchStep(Rules, id, 12);
    if !Includes(id, "/components/layout/") {
      FirstMatchStep(Rules, id, 13);
      if !Includes(id, "/components/") {
        FirstMatchStep(Rules, id, 14);
        if !Includes(id, "/lib/") {
          FirstMatchStep(Rules, id, 15);
          if !Includes(id, "node_modules") {
            assert FirstMatch(Rules[16..], id) == None;
          }
        }
      }
    }
  }

  /** The chain as written classifies every id as the reduced table does. */
  lemma ManualChunksIsFirstMatch(id: string)
    ensures ManualChunks(id) == FirstMatch(Rules, id)
  {
    ShadowedPatterns(id);
    assert Rules[0..] == Rules;
    FirstMatchStep(Rules, id, 0);
    if !Includes(id, "react") {
      FirstMatchStep(Rules, id, 1);
      if !Includes(id, "@radix-ui") {
        FirstMatchStep(Rules, id, 2);
        if !Includes(id, "framer-motion") {
          FirstMatchStep(Rules, id, 3);
          if !Includes(id, "clsx") {
            FirstMatchStep(Rules, id, 4);
            if !Includes(id, "class-variance-authority") {
              FirstMatchStep(Rules, id, 5);
              if !Includes(id, "tailwind-merge") {
                FirstMatchStep(Rules, id, 6);
                if !Includes(id, "tailwindcss") {
                  ManualChunksApplicationRules(id);
                }
              }
            }
          }
        }
      }
    }
  }

  /** Whether `id` includes one of the library patterns that come first in the chain. */
  predicate LibraryId(id: string) {
    || Includes(id, "react") || Includes(id, "@radix-ui") || Includes(id, "framer-motion")
    || Includes(id, "clsx") || Includes(id, "class-variance-authority") || Includes(id, "tailwind-merge")
    || Includes(id, "tailwindcss")
  }

  /** Whether `id` includes one of the page patterns. */
  predicate PageId(id: string) {
    || Includes(id, "/pages/HomePage") || Includes(id, "/pages/AboutPage") || Includes(id, "/pages/ProjectsPage")
    || Includes(id, "/pages/ContactPage") || Includes(id, "/pages/NotFoundPage")
  }

  /** First match wins: every id including `react` is in `react-core`, and only those, so `lucide-react` is too. */
  lemma ReactCoreIff(id: string)
    ensures ManualChunks(id) == Some("react-core") <==> Includes(id, "react")
    ensures Includes(id, "lucide-react") ==> ManualChunks(id) == Some("react-core")
  {
    ShadowedPatterns(id);
  }

  /** No id lands in `router`: an id including `react-router-dom` includes `react`. */
  lemma RouterUnreachable(id: string)
    ensures ManualChunks(id) != Some("router")
  {
    ShadowedPatterns(id);
  }

  /** `ui-components` holds exactly the `@radix-ui` ids that do not include `react`. */
  lemma UiComponentsIff(id: string)
    ensures ManualChunks(id) == Some("ui-components") <==> Includes(id, "@radix-ui") && !Includes(id, "react")
  {
    ShadowedPatterns(id);
  }

  /** `styling` holds exactly the `tailwindcss` ids that no earlier rule takes; the `tailwindcss-animate` test adds nothing. */
  lemma StylingIff(id: string)
    ensures ManualChunks(id) == Some("styling")
        <==> && Includes(id, "tailwindcss")
             && !Includes(id, "react") && !Includes(id, "@radix-ui") && !Includes(id, "framer-motion")
             && !Includes(id, "clsx") && !Includes(id, "class-variance-authority") && !Includes(id, "tailwind-merge")
  {
    ShadowedPatterns(id);
  }

  /**
   * An application id under `/components/layout/` goes to `layout` and any
   * other `/components/` id to `components`, unless a library or page rule
   * takes it first.
   */
  lemma ComponentsIff(id: string)
    ensures ManualChunks(id) == Some("layout")
        <==> !LibraryId(id) && !PageId(id) && Includes(id, "/components/layout/")
    ensures ManualChunks(id) == Some("components")
        <==> !LibraryId(id) && !PageId(id) && Includes(id, "/components/") && !Includes(id, "/components/layout/")
  {
    ShadowedPatterns(id);
  }

  /** An id that includes none of the patterns gets no chunk name, and only such an id. */
  lemma NoChunkIff(id: string)
    ensures ManualChunks(id) == None <==> forall k :: 0 <= k < |Rules| ==> !Includes(id, Rules[k].pattern)
  {
    ManualChunksIsFirstMatch(id);
    FirstKey(Rules, id);
    var k: nat :| FirstHit(Rules, id, k);
    FirstMatchAt(Rules, id, k);
  }

  /** Any id's chunk is that of the first table rule it matches. */
  lemma ChunkIsFirstRule(id: string, k: nat)
    requires k < |Rules| && FirstHit(Rules, id, k)
    ensures ManualChunks(id) == Some(Rules[k].chunk)
  {
    ManualChunksIsFirstMatch(id);
    FirstMatchAt(Rules, id, k);
  }

  /** The part of every asset file name before the extension. */
  const AssetPrefix := "assets/[name]-[hash]."

  /** `assetFileNames(assetInfo)` as written, both branches of the `.css` test included. */
  function AssetFileName(name: string): string {
    var info := Split(name, '.');
    var ext := Last(info);
    if EndsWith(name, ".css") then AssetPrefix + ext else AssetPrefix + ext
  }

  /**
   * An asset is named by the prefix and then the longest suffix of its
   * name holding no `.`: the whole name when it has no `.`, else what
   * follows its last `.`.
   */
  lemma AssetFileNameExtension(name: string)
    ensures var r := AssetFileName(name);
      && AssetPrefix <= r
      && var ext := r[|AssetPrefix|..];
      && EndsWith(name, ext) && '.' !in ext
      && (|ext| < |name| ==> name[|name| - |ext| - 1] == '.')
  {
    SplitLastSuffix(name, '.');
    var ext := Last(Split(name, '.'));
    assert (AssetPrefix + ext)[|AssetPrefix|..] == ext;
  }

  /** A `.css` asset is named `assets/[name]-[hash].css`. */
  lemma AssetFileNameCss(name: string)
    requires EndsWith(name, ".css")
    ensures AssetFileName(name) == "assets/[name]-[hash].css"
  {
    var stem := name[..|name| - 4];
    assert name == stem + ['.'] + "css";
    SplitLastAfter(stem, "css", '.');
  }

  /** A name without a `.` is its own extension. */
  lemma AssetFileNameWithoutDot(name: string)
    requires '.' !in name
    ensures AssetFileName(name) == AssetPrefix + name
  {
    SplitWithoutSeparator(name, '.');
  }
}
