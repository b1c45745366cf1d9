/**
 * The `Diagrams` object: its constructor preprocesses the grammar text,
 * hands it to the parser, turns every rule of the parse into a diagram and
 * keeps the rendered SVG of each; `get_svg` then stacks the rendered
 * diagrams vertically into one SVG document.
 *
 * The parser and the railroad renderer are parameters: `parse` maps the
 * preprocessed text to the rules of the parse (or to a parse error), and
 * `render` maps a diagram to the parts of its SVG that `get_svg` reads.
 */
module Render {
  import opened Wrappers
  import opened Builder
  import Preprocess

  /** A dimension read from an SVG attribute: `[\d.]+` has no sign. */
  type Dim = x: real | 0.0 <= x

  /** The `width` and `height` attributes of a rendered diagram. */
  datatype Size = Size(width: Dim, height: Dim)

  /** A rendered diagram as `get_svg` reads it: its size, or `None` when the
      opening tag does not carry a height and a width that parse as numbers,
      and the content between its opening tag and its closing `</svg>`. */
  datatype Fragment = Fragment(size: Option<Size>, content: string)

  /** One rendered diagram moved down by `offset`: the `<g transform=
      "translate(0, offset)">` element around its content. */
  datatype Group = Group(offset: real, content: string)

  /** The stacked document: its view box and the translated groups, top to
      bottom. */
  datatype Composed = Composed(width: real, height: real, groups: seq<Group>)

  /** Why the constructor fails: the parser refuses the text, a rule does
      not have the shape the constructor unpacks and asserts, or the
      translation of a right-hand side fails. */
  datatype InitError = ParseFailed | MalformedRule | BuildFailed(cause: BuildError)

  /** Why stacking fails: the rendered diagram at `index` has no readable
      size, so the match in `get_svg` is `None` or `float` refuses it. */
  datatype StackError = MalformedFragment(index: nat)

  // ------------------------------------------------------------------
  // One rule
  // ------------------------------------------------------------------

  /** `rule` unpacks into a left- and a right-hand side; the left-hand side
      has exactly one child, whose first child is an `ID` token; and the
      right-hand side has exactly one child. */
  predicate WellShaped(rule: Tree)
  {
    && rule.Node? && |rule.children| == 2
    && var lhs := rule.children[0];
    && var rhs := rule.children[1];
    && lhs.Node? && |lhs.children| == 1
    && lhs.children[0].Node? && |lhs.children[0].children| >= 1
    && lhs.children[0].children[0].Token? && lhs.children[0].children[0].kind == "ID"
    && rhs.Node? && |rhs.children| == 1
  }

  /** The name of a well-shaped rule. */
  function RuleName(rule: Tree): string
    requires WellShaped(rule)
  {
    rule.children[0].children[0].children[0].value
  }

  /** The tree of a well-shaped rule's right-hand side. */
  function RuleBody(rule: Tree): Tree
    requires WellShaped(rule)
  {
    rule.children[1].children[0]
  }

  /** The diagram the constructor builds for one rule: the shape checks
      come first, then the translation of the right-hand side. */
  function RuleDiagram(rule: Tree, links: map<string, string>): (r: Result<Diagram, InitError>)
    ensures r.Ok? <==> WellShaped(rule) && Build(RuleBody(rule), links).Ok?
    ensures r.Ok? ==> r.value.start == Start(RuleName(rule)) && Build(RuleBody(rule), links) == Ok(r.value.body)
    ensures !WellShaped(rule) ==> r == Err(MalformedRule)
    ensures r.Err? && WellShaped(rule) ==> r == Err(BuildFailed(Build(RuleBody(rule), links).error))
  {
    if !rule.Node? || |rule.children| != 2 then Err(MalformedRule)
    else
      var lhs := rule.children[0];
      var rhs := rule.children[1];
      if !lhs.Node? || |lhs.children| != 1 then Err(MalformedRule)
      else if !lhs.children[0].Node? || |lhs.children[0].children| == 0 then Err(MalformedRule)
      else if !lhs.children[0].children[0].Token? || lhs.children[0].children[0].kind != "ID" then Err(MalformedRule)
      else if !rhs.Node? || |rhs.children| != 1 then Err(MalformedRule)
      else
        var name := lhs.children[0].children[0].value;
        match Build(rhs.children[0], links)
        case Err(e) => Err(BuildFailed(e))
        case Ok(body) => Ok(Diagram(Start(name), body))
  }

  /** Every rule yields a diagram. */
  predicate AllDrawn(rules: seq<Tree>, links: map<string, string>)
  {
    forall i :: 0 <= i < |rules| ==> RuleDiagram(rules[i], links).Ok?
  }

  /** The rendered diagram of every rule, in rule order, provided every
      rule yields one. */
  function Renderings(rules: seq<Tree>, links: map<string, string>, render: Diagram -> Fragment): (fs: seq<Fragment>)
    requires AllDrawn(rules, links)
    ensures |fs| == |rules|
    ensures forall i :: 0 <= i < |rules| ==> fs[i] == render(RuleDiagram(rules[i], links).value)
  {
    if |rules| == 0 then []
    else
      var init := rules[..|rules| - 1];
      assert forall i :: 0 <= i < |init| ==> init[i] == rules[i];
      Renderings(init, links, render) + [render(RuleDiagram(rules[|rules| - 1], links).value)]
  }

  /** `e` is the error of the first rule that does not yield a diagram. */
  predicate FirstFailure(rules: seq<Tree>, links: map<string, string>, e: InitError)
  {
    exists i :: 0 <= i < |rules| && RuleDiagram(rules[i], links) == Err(e)
                && forall j :: 0 <= j < i ==> RuleDiagram(rules[j], links).Ok?
  }

  /** A rule that yields no diagram after rules that all do is the first
      failure. */
  lemma FailureAt(rules: seq<Tree>, i: nat, links: map<string, string>)
    requires i < |rules| && AllDrawn(rules[..i], links) && RuleDiagram(rules[i], links).Err?
    ensures FirstFailure(rules, links, RuleDiagram(rules[i], links).error)
    ensures !AllDrawn(rules, links)
  {
    assert forall k :: 0 <= k < i ==> rules[..i][k] == rules[k];
  }

  /** One more rule that yields a diagram adds its rendering at the end. */
  lemma RenderingsStep(rules: seq<Tree>, i: nat, links: map<string, string>, render: Diagram -> Fragment)
    requires i < |rules| && AllDrawn(rules[..i], links) && RuleDiagram(rules[i], links).Ok?
    ensures AllDrawn(rules[..i + 1], links)
    ensures Renderings(rules[..i + 1], links, render)
         == Renderings(rules[..i], links, render) + [render(RuleDiagram(rules[i], links).value)]
  {
    assert rules[..i + 1][..i] == rules[..i];
  }

  // ------------------------------------------------------------------
  // Stacking
  // ------------------------------------------------------------------

  /** Every fragment has a readable size. */
  predicate AllSized(fs: seq<Fragment>)
  {
    forall i :: 0 <= i < |fs| ==> fs[i].size.Some?
  }

  /** The height of the fragments stacked on top of each other. */
  function TotalHeight(fs: seq<Fragment>): (h: real)
    requires AllSized(fs)
    ensures 0.0 <= h
  {
    if |fs| == 0 then 0.0 else TotalHeight(fs[..|fs| - 1]) + fs[|fs| - 1].size.value.height
  }

  /** The widest of the fragments, and 0 when there are none. */
  function MaxWidth(fs: seq<Fragment>): real
    requires AllSized(fs)
  {
    if |fs| == 0 then 0.0
    else
      var w := fs[|fs| - 1].size.value.width;
      var m := MaxWidth(fs[..|fs| - 1]);
      if w > m then w else m
  }

  /** The offset of fragment `i`: the height of the fragments above it. */
  function Offset(fs: seq<Fragment>, i: nat): real
    requires i <= |fs| && AllSized(fs)
  {
    TotalHeight(fs[..i])
  }

  /** Offsets do not depend on the fragments further down. */
  lemma OffsetInPrefix(fs: seq<Fragment>, n: nat, i: nat)
    requires i <= n <= |fs| && AllSized(fs)
    ensures AllSized(fs[..n]) && Offset(fs[..n], i) == Offset(fs, i)
  {
    assert fs[..n][..i] == fs[..i];
  }

  /** The groups of the stacked document, top to bottom: each fragment's
      content moved down by the height of those above it. */
  function Stacked(fs: seq<Fragment>): seq<Group>
    requires AllSized(fs)
  {
    if |fs| == 0 then []
    else
      var init := fs[..|fs| - 1];
      Stacked(init) + [Group(TotalHeight(init), fs[|fs| - 1].content)]
  }

  /** There is one group per fragment, in order, and group i is fragment i
      at its offset. */
  lemma {:induction false} StackedAtOffsets(fs: seq<Fragment>)
    requires AllSized(fs)
    ensures |Stacked(fs)| == |fs|
    ensures forall i :: 0 <= i < |fs| ==> Stacked(fs)[i] == Group(Offset(fs, i), fs[i].content)
  {
    if |fs| > 0 {
      var init := fs[..|fs| - 1];
      StackedAtOffsets(init);
      forall i | 0 <= i < |init|
        ensures Offset(init, i) == Offset(fs, i)
      {
        OffsetInPrefix(fs, |fs| - 1, i);
      }
    }
  }

  /** Extending a sized prefix by one sized fragment adds its height and
      widens to its width. */
  lemma PrefixStep(fs: seq<Fragment>, i: nat)
    requires i < |fs| && AllSized(fs[..i]) && fs[i].size.Some?
    ensures AllSized(fs[..i + 1])
    ensures TotalHeight(fs[..i + 1]) == TotalHeight(fs[..i]) + fs[i].size.value.height
    ensures MaxWidth(fs[..i + 1]) == if fs[i].size.value.width > MaxWidth(fs[..i]) then fs[i].size.value.width else MaxWidth(fs[..i])
    ensures Stacked(fs[..i + 1]) == Stacked(fs[..i]) + [Group(TotalHeight(fs[..i]), fs[i].content)]
  {
    assert fs[..i + 1] == fs[..i] + [fs[i]];
    assert fs[..i + 1][..i] == fs[..i];
  }

  /** A fragment without a size means not all are sized. */
  lemma NotAllSized(fs: seq<Fragment>, i: nat)
    requires i < |fs| && fs[i].size.None?
    ensures !AllSized(fs)
  {
  }

  /** `MaxWidth` is the width of the canvas that holds every fragment: no
      fragment is wider, and it is the width of one of them unless there are
      none. */
  lemma {:induction false} MaxWidthIsMaximum(fs: seq<Fragment>)
    requires AllSized(fs)
    ensures forall i :: 0 <= i < |fs| ==> fs[i].size.value.width <= MaxWidth(fs)
    ensures |fs| == 0 ==> MaxWidth(fs) == 0.0
    ensures |fs| > 0 ==> exists i :: 0 <= i < |fs| && MaxWidth(fs) == fs[i].size.value.width
  {
    if |fs| > 0 {
      var init := fs[..|fs| - 1];
      assert AllSized(init);
      MaxWidthIsMaximum(init);
      assert forall i :: 0 <= i < |init| ==> init[i] == fs[i];
      if |init| == 0 {
        assert MaxWidth(fs) == fs[0].size.value.width;
      }
    }
  }

  /** Heights add up across a split of the fragments. */
  lemma {:induction false} TotalHeightSplits(a: seq<Fragment>, b: seq<Fragment>)
    requires AllSized(a) && AllSized(b)
    ensures AllSized(a + b)
    ensures TotalHeight(a + b) == TotalHeight(a) + TotalHeight(b)
    decreases |b|
  {
    assert AllSized(a + b) by {
      assert forall i :: 0 <= i < |a + b| ==> (a + b)[i] == if i < |a| then a[i] else b[i - |a|];
    }
    if |b| == 0 {
      assert a + b == a;
    } else {
      var init := b[..|b| - 1];
      assert (a + b)[..|a + b| - 1] == a + init;
      assert AllSized(init);
      TotalHeightSplits(a, init);
    }
  }

  /** Fragment `i` starts where fragment `i - 1` ends: the first sits at the
      top, each next one right below the previous one, and the last one
      ends at the bottom of the canvas. */
  lemma OffsetsTile(fs: seq<Fragment>, i: nat)
    requires AllSized(fs) && i < |fs|
    ensures Offset(fs, 0) == 0.0
    ensures Offset(fs, i + 1) == Offset(fs, i) + fs[i].size.value.height
    ensures i == |fs| - 1 ==> Offset(fs, i) + fs[i].size.value.height == TotalHeight(fs)
  {
    assert fs[..i + 1][..i] == fs[..i];
    assert fs[..i + 1][i] == fs[i];
    assert fs[..|fs|] == fs;
  }

  /** No two stacked fragments overlap and each lies inside the canvas: a
      fragment above another ends no lower than the other starts, and every
      fragment ends no lower than the total height. */
  lemma {:induction false} StackedWithoutOverlap(fs: seq<Fragment>, i: nat, j: nat)
    requires AllSized(fs) && i < j <= |fs|
    ensures Offset(fs, i) + fs[i].size.value.height <= Offset(fs, j)
    ensures Offset(fs, j) <= TotalHeight(fs)
  {
    OffsetsTile(fs, i);
    var mid := fs[i + 1..j];
    assert AllSized(fs[..i + 1]) && AllSized(mid);
    assert fs[..j] == fs[..i + 1] + mid;
    TotalHeightSplits(fs[..i + 1], mid);
    var rest := fs[j..];
    assert AllSized(fs[..j]) && AllSized(rest);
    assert fs == fs[..j] + rest;
    TotalHeightSplits(fs[..j], rest);
  }

  // ------------------------------------------------------------------
  // The object
  // ------------------------------------------------------------------

  class Diagrams {
    /** The link table rule references are decorated from. */
    var links: map<string, string>
    /** The rendered diagrams, one per rule, in the order of the rules. */
    var diagrams: seq<Fragment>

    /** The object before any rule is added. */
    constructor Empty(links: map<string, string>)
      ensures this.links == links && diagrams == []
    {
      this.diagrams := [];
      this.links := links;
    }

    /** `Diagrams(bnf, links)`: parses the preprocessed grammar and keeps the
        rendering of every rule's diagram, in order; fails with the parse
        error or with the error of the first rule that cannot be drawn. */
    static method Create(bnf: string, links: map<string, string>,
                         parse: string -> Option<seq<Tree>>, render: Diagram -> Fragment)
      returns (r: Result<Diagrams, InitError>)
      ensures var rules := parse(Preprocess.PreprocessGrammar(bnf));
        && (rules.None? ==> r == Err(ParseFailed))
        && (rules.Some? ==> (r.Ok? <==> AllDrawn(rules.value, links)))
        && (r.Ok? ==> rules.Some? && fresh(r.value) && r.value.links == links)
        && (r.Ok? ==> r.value.diagrams == Renderings(rules.value, links, render))
        && (r.Err? && rules.Some? ==> FirstFailure(rules.value, links, r.error))
    {
      var parsed := parse(Preprocess.PreprocessGrammar(bnf));
      if parsed.None? {
        return Err(ParseFailed);
      }
      r := FromRules(parsed.value, links, render);
    }

    /** The rule loop of the constructor, on the rules of the parse. */
    static method FromRules(rules: seq<Tree>, links: map<string, string>, render: Diagram -> Fragment)
      returns (r: Result<Diagrams, InitError>)
      ensures r.Ok? <==> AllDrawn(rules, links)
      ensures r.Ok? ==> fresh(r.value) && r.value.links == links
      ensures r.Ok? ==> r.value.diagrams == Renderings(rules, links, render)
      ensures r.Err? ==> FirstFailure(rules, links, r.error)
    {
      var d := new Diagrams.Empty(links);
      for i := 0 to |rules|
        invariant d.links == links
        invariant AllDrawn(rules[..i], links)
        invariant d.diagrams == Renderings(rules[..i], links, render)
      {
        var diagram := RuleDiagram(rules[i], d.links);
        if diagram.Err? {
          FailureAt(rules, i, links);
          return Err(diagram.error);
        }
        RenderingsStep(rules, i, links, render);
        d.diagrams := d.diagrams + [render(diagram.value)];
      }
      assert rules[..|rules|] == rules;
      return Ok(d);
    }

    /** `get_svg()`: stacks the rendered diagrams top to bottom, each moved
        down by the heights of those above it, on a canvas as wide as the
        widest and as high as all together; fails at the first diagram
        whose size cannot be read. */
    method GetSvg() returns (r: Result<Composed, StackError>)
      ensures r.Ok? <==> AllSized(diagrams)
      ensures r.Err? ==> var i := r.error.index;
        i < |diagrams| && diagrams[i].size.None? && AllSized(diagrams[..i])
      ensures r.Ok? ==> r.value == Composed(MaxWidth(diagrams), TotalHeight(diagrams), Stacked(diagrams))
    {
      var maxWidth: real := 0.0;
      var height: real := 0.0;
      var groups: seq<Group> := [];
      for i := 0 to |diagrams|
        invariant AllSized(diagrams[..i])
        invariant height == TotalHeight(diagrams[..i]) && maxWidth == MaxWidth(diagrams[..i])
        invariant groups == Stacked(diagrams[..i])
      {
        var fragment := diagrams[i];
        if fragment.size.None? {
          NotAllSized(diagrams, i);
          return Err(MalformedFragment(i));
        }
        PrefixStep(diagrams, i);
        groups := groups + [Group(height, fragment.content)];
        height := height + fragment.size.value.height;
        var width := fragment.size.value.width;
        if width > maxWidth {
          maxWidth := width;
        }
      }
      assert diagrams[..|diagrams|] == diagrams;
      return Ok(Composed(maxWidth, height, groups));
    }
  }
}
