/**
 * The script library page (app/code/is-01/page.tsx): the category buttons, the category
 * filter, the selected script and its copy-all text.
 */
module Scripts {
  import opened Options
  import opened Strings
  import opened Seqs

  datatype Script = Script(id: string, name: string, description: string, commands: seq<string>, category: string)

  const AllCategories := "All"

  /** The position of the first occurrence of `x` in `xs`, or -1. */
  function FirstAt(xs: seq<string>, x: string): (r: int)
    ensures -1 <= r < |xs|
    ensures r >= 0 ==> xs[r] == x && x !in xs[..r]
    ensures r == -1 <==> x !in xs
  {
    if |xs| == 0 then -1
    else if xs[0] == x then 0
    else
      var k := FirstAt(xs[1..], x);
      assert xs[1..][..if k < 0 then 0 else k] == xs[1..1 + if k < 0 then 0 else k];
      if k == -1 then -1 else k + 1
  }

  /** `[...new Set(xs)]`: a set iterates in insertion order, so every value once, where it
      first appears. */
  function Dedup(xs: seq<string>): seq<string>
  {
    if |xs| == 0 then []
    else
      var d := Dedup(xs[..|xs| - 1]);
      if xs[|xs| - 1] in d then d else d + [xs[|xs| - 1]]
  }

  predicate Distinct(xs: seq<string>)
  {
    forall i, j :: 0 <= i < j < |xs| ==> xs[i] != xs[j]
  }

  /** The deduplicated list holds each value of `xs` exactly once, in the order of first
      appearance. */
  lemma {:induction false} DedupIsFirstAppearance(xs: seq<string>)
    ensures var d := Dedup(xs);
            && Distinct(d)
            && (forall x :: x in d ==> x in xs)
            && (forall x :: x in xs ==> x in d)
            && forall i, j :: 0 <= i < j < |d| ==> FirstAt(xs, d[i]) < FirstAt(xs, d[j])
  {
    if |xs| > 0 {
      var init := xs[..|xs| - 1];
      var last := xs[|xs| - 1];
      DedupIsFirstAppearance(init);
      var d := Dedup(init);
      assert xs == init + [last];
      forall x | x in init
        ensures FirstAt(xs, x) == FirstAt(init, x)
      {
        FirstAtPrefix(init, last, x);
      }
      if last !in d {
        assert last !in init;
        FirstAtPrefix(init, last, last);
        assert FirstAt(xs, last) == |init|;
      }
    }
  }

  lemma {:induction false} FirstAtPrefix(init: seq<string>, last: string, x: string)
    requires x in init || x == last
    ensures FirstAt(init + [last], x) == if x in init then FirstAt(init, x) else |init|
  {
    var xs := init + [last];
    if |init| > 0 {
      assert xs[1..] == init[1..] + [last];
      if init[0] != x {
        FirstAtPrefix(init[1..], last, x);
      }
    }
  }

  /** `categories`, computed the way a `Set` fills: walk the scripts and append each category
      not yet seen. */
  method Categories(scripts: seq<Script>) returns (r: seq<string>)
    ensures |r| >= 1 && r[0] == AllCategories
    ensures r[1..] == Dedup(CategoryList(scripts))
  {
    var seen: seq<string> := [];
    var i := 0;
    while i < |scripts|
      invariant 0 <= i <= |scripts|
      invariant seen == Dedup(CategoryList(scripts[..i]))
    {
      var c := scripts[i].category;
      assert CategoryList(scripts[..i + 1]) == CategoryList(scripts[..i]) + [c];
      if c !in seen {
        seen := seen + [c];
      }
      i := i + 1;
    }
    assert scripts[..i] == scripts;
    r := [AllCategories] + seen;
  }

  /** `scripts.map(s => s.category)`. */
  function CategoryList(scripts: seq<Script>): (r: seq<string>)
    ensures |r| == |scripts|
    ensures forall i :: 0 <= i < |scripts| ==> r[i] == scripts[i].category
  {
    seq(|scripts|, i requires 0 <= i < |scripts| => scripts[i].category)
  }

  /** `filteredScripts`: all of them for "All", otherwise those of the chosen category in
      their original order. */
  function FilterScripts(scripts: seq<Script>, category: string): (r: seq<Script>)
    ensures category == AllCategories ==> r == scripts
    ensures category != AllCategories ==>
              && (forall s :: s in r ==> s in scripts && s.category == category)
              && (forall s :: s in scripts && s.category == category ==> s in r)
              && forall s :: multiset(r)[s] == if s.category == category then multiset(scripts)[s] else 0
  {
    if category == AllCategories then scripts
    else
      var p := (s: Script) => s.category == category;
      FilterMultiset(scripts, p);
      Filter(scripts, p)
  }

  /** The filter keeps the scripts in their original order: it distributes over
      concatenation and keeps or drops a single script by its category. */
  lemma FilterScriptsOrder(a: seq<Script>, b: seq<Script>, category: string)
    ensures FilterScripts(a + b, category) == FilterScripts(a, category) + FilterScripts(b, category)
    ensures forall s :: FilterScripts([s], category) == if category == AllCategories || s.category == category then [s] else []
  {
    if category != AllCategories {
      FilterConcat(a, b, (s: Script) => s.category == category);
    }
  }

  /** Every category button other than "All" shows at least one script, provided no script
      is itself filed under "All". */
  lemma EveryCategoryShowsSomething(scripts: seq<Script>, c: string)
    requires forall s :: s in scripts ==> s.category != AllCategories
    requires c in Dedup(CategoryList(scripts))
    ensures |FilterScripts(scripts, c)| > 0
  {
    DedupIsFirstAppearance(CategoryList(scripts));
    var k :| 0 <= k < |scripts| && scripts[k].category == c;
    assert scripts[k] in FilterScripts(scripts, c);
  }

  /** `currentScript`: nothing when no (or an empty) id is selected, otherwise the first
      script with that id, if there is one. */
  function CurrentScript(scripts: seq<Script>, selected: Option<string>): (r: Option<Script>)
    ensures selected == None || selected == Some("") ==> r == None
    ensures r.Some? ==> r.value in scripts && selected == Some(r.value.id)
    ensures selected.Some? && selected.value != "" ==>
              (r.None? <==> forall s :: s in scripts ==> s.id != selected.value)
    ensures r.Some? ==> exists k :: 0 <= k < |scripts| && scripts[k] == r.value
                                    && forall j :: 0 <= j < k ==> scripts[j].id != r.value.id
  {
    if selected.None? || selected.value == "" then None
    else
      var id := selected.value;
      var k := FindIndex(scripts, (s: Script) => s.id == id);
      if k == -1 then None else Some(scripts[k])
  }

  /** The copy-all text: the commands joined with newlines. */
  function CopyAllText(s: Script): string
  {
    Join(s.commands, '\n')
  }

  /** Splitting the copy-all text on newlines gives the commands back, when there is at
      least one command and none spans lines; so the copied text loses nothing. */
  lemma CopyAllKeepsCommands(s: Script)
    requires |s.commands| >= 1
    requires forall k :: 0 <= k < |s.commands| ==> '\n' !in s.commands[k]
    ensures Split(CopyAllText(s), '\n') == s.commands
  {
    SplitJoin(s.commands, '\n');
  }
}
