/**
 * The translation of one rule's right-hand side from the parse tree into
 * railroad-diagram primitives (`Diagrams._process_rule`): a structural
 * recursion with one case per node tag, a link lookup for rule references,
 * and an error for any other tag.
 */
module Builder {
  import opened Wrappers

  /** A node of the parse tree: a rule node, with its tag and children, or a
      token, with its type and text. */
  datatype Tree =
    | Node(tag: string, children: seq<Tree>)
    | Token(kind: string, value: string)

  /** The railroad primitives `_process_rule` constructs. */
  datatype Prim =
    | Choice(defaultIndex: int, branches: seq<Prim>)
    | Sequence(items: seq<Prim>)
    | Optional(item: Prim)
    | OneOrMore(item: Prim)
    | Terminal(text: string)
    | NonTerminal(name: string, title: string, href: Option<string>)

  /** The entry marker drawn at the start of a rule's diagram. */
  datatype Start = Start(name: string)

  /** `Diagram(Start(label=...), body)`: what is handed to the renderer. */
  datatype Diagram = Diagram(start: Start, body: Prim)

  /** Why a tree could not be translated: the `ValueError` raised for a tag
      with no case (`NonMatching`), or the attribute or index error Python
      raises on a token where a rule node is expected, on a missing child,
      or on a rule node where a token is expected (`Malformed`). */
  datatype BuildError = NonMatching(tag: string) | Malformed

  // ------------------------------------------------------------------
  // Python's `str.strip('"')`
  // ------------------------------------------------------------------

  /** Every character of `s` is a `"`. */
  predicate AllQuotes(s: string)
  {
    forall k :: 0 <= k < |s| ==> s[k] == '"'
  }

  /** `s` without its leading `"` characters. */
  function StripLeadingQuotes(s: string): (r: string)
    ensures |r| <= |s|
    ensures |r| == 0 || r[0] != '"'
  {
    if |s| > 0 && s[0] == '"' then StripLeadingQuotes(s[1..]) else s
  }

  /** `s` without its trailing `"` characters. */
  function StripTrailingQuotes(s: string): (r: string)
    ensures |r| <= |s|
    ensures |r| == 0 || r[|r| - 1] != '"'
  {
    if |s| > 0 && s[|s| - 1] == '"' then StripTrailingQuotes(s[..|s| - 1]) else s
  }

  /** What is left after the leading quotes is a suffix of `s`, and only
      quotes come before it. */
  lemma {:induction false} LeadingQuotesPrefix(s: string)
    ensures var r := StripLeadingQuotes(s);
      r == s[|s| - |r|..] && AllQuotes(s[..|s| - |r|])
    decreases |s|
  {
    if |s| > 0 && s[0] == '"' {
      var t := s[1..];
      LeadingQuotesPrefix(t);
      var r := StripLeadingQuotes(t);
      var n := |s| - |r|;
      assert t[|t| - |r|..] == s[n..];
      assert s[..n] == [s[0]] + t[..|t| - |r|];
    }
  }

  /** What is left before the trailing quotes is a prefix of `s`, and only
      quotes come after it. */
  lemma {:induction false} TrailingQuotesSuffix(s: string)
    ensures var r := StripTrailingQuotes(s);
      r == s[..|r|] && AllQuotes(s[|r|..])
    decreases |s|
  {
    if |s| > 0 && s[|s| - 1] == '"' {
      var t := s[..|s| - 1];
      TrailingQuotesSuffix(t);
      var r := StripTrailingQuotes(t);
      assert t[..|r|] == s[..|r|];
      assert s[|r|..] == t[|r|..] + [s[|s| - 1]];
    }
  }

  /** `s.strip('"')`: the part of `s` left between its leading and its
      trailing run of `"` characters; it neither starts nor ends with one. */
  function StripQuotes(s: string): (r: string)
    ensures |r| == 0 || (r[0] != '"' && r[|r| - 1] != '"')
  {
    var t := StripLeadingQuotes(s);
    var r := StripTrailingQuotes(t);
    TrailingQuotesSuffix(t);
    assert |r| > 0 ==> r[0] == t[0];
    r
  }

  /** What `StripQuotes` leaves is a slice of its input, with nothing but
      quotes before and after it. */
  lemma StripQuotesIsSlice(s: string)
    ensures exists a: nat, b: nat {:trigger s[a..b]} ::
              a <= b <= |s| && StripQuotes(s) == s[a..b] && AllQuotes(s[..a]) && AllQuotes(s[b..])
  {
    var t := StripLeadingQuotes(s);
    var r := StripTrailingQuotes(t);
    LeadingQuotesPrefix(s);
    TrailingQuotesSuffix(t);
    var a := |s| - |t|;
    var b := a + |r|;
    assert r == s[a..b];
    assert AllQuotes(s[b..]) by {
      assert s[b..] == t[|r|..];
    }
  }

  // ------------------------------------------------------------------
  // The translation
  // ------------------------------------------------------------------

  /** The branch of `_process_rule` a node tag selects. */
  datatype Form =
    | ChoiceForm      // "alternatives"
    | SequenceForm    // "alternative" and "grouping"
    | OptionalForm    // "optional"
    | OneOrMoreForm   // "oneormore"
    | TextForm        // "text"
    | RuleIdForm      // "ruleid"
    | NoForm          // any other tag

  /** The node tags `_process_rule` has a case for. */
  const KnownTags: set<string> :=
    {"alternatives", "alternative", "grouping", "optional", "oneormore", "text", "ruleid"}

  /** The test chain on `rule.data.value`: a known tag selects a branch of
      its own, and every other tag falls through to the error. */
  function FormOf(tag: string): (f: Form)
    ensures f == NoForm <==> tag !in KnownTags
  {
    if tag == "alternatives" then ChoiceForm
    else if tag == "alternative" || tag == "grouping" then SequenceForm
    else if tag == "optional" then OptionalForm
    else if tag == "oneormore" then OneOrMoreForm
    else if tag == "text" then TextForm
    else if tag == "ruleid" then RuleIdForm
    else NoForm
  }

  /** The rule-reference leaf for `name`: labelled with its own name, and
      linked exactly when the link table has an entry for it. */
  function Reference(name: string, links: map<string, string>): (p: Prim)
    ensures p.NonTerminal? && p.name == name && p.title == name
    ensures p.href.Some? ==> name in links && p.href.value == links[name]
    ensures p.href.None? ==> name !in links
  {
    NonTerminal(name, name, if name in links then Some(links[name]) else None)
  }

  /** The kind of primitive each branch of the test chain constructs. */
  predicate Fits(f: Form, p: Prim)
  {
    match f
    case ChoiceForm => p.Choice?
    case SequenceForm => p.Sequence?
    case OptionalForm => p.Optional?
    case OneOrMoreForm => p.OneOrMore?
    case TextForm => p.Terminal?
    case RuleIdForm => p.NonTerminal?
    case NoForm => false
  }

  /** `_process_rule(t)` with `self.links == links`. Only a rule node with a
      known tag translates, and its tag decides the kind of the primitive. */
  function Build(t: Tree, links: map<string, string>): (r: Result<Prim, BuildError>)
    ensures r.Ok? ==> t.Node? && Fits(FormOf(t.tag), r.value)
    decreases t
  {
    match t
    case Token(_, _) => Err(Malformed)
    case Node(tag, children) =>
      match FormOf(tag)
      case ChoiceForm =>
        var branches :- BuildAll(children, links);
        Ok(Choice(0, branches))
      case SequenceForm =>
        var items :- BuildAll(children, links);
        Ok(Sequence(items))
      case OptionalForm =>
        if |children| == 0 then Err(Malformed)
        else
          var item :- Build(children[0], links);
          Ok(Optional(item))
      case OneOrMoreForm =>
        if |children| == 0 then Err(Malformed)
        else
          var item :- Build(children[0], links);
          Ok(OneOrMore(item))
      case TextForm =>
        if |children| == 0 || !children[0].Token? then Err(Malformed)
        else Ok(Terminal(StripQuotes(children[0].value)))
      case RuleIdForm =>
        if |children| == 0 || !children[0].Token? then Err(Malformed)
        else Ok(Reference(children[0].value, links))
      case NoForm => Err(NonMatching(tag))
  }

  /** The loop that appends the translation of each child in turn: all the
      translations in order, or the error of the first child that fails. */
  function BuildAll(children: seq<Tree>, links: map<string, string>): (r: Result<seq<Prim>, BuildError>)
    ensures r.Ok? <==> forall i :: 0 <= i < |children| ==> Build(children[i], links).Ok?
    ensures r.Ok? ==> |r.value| == |children|
    ensures r.Ok? ==> forall i :: 0 <= i < |children| ==> Build(children[i], links) == Ok(r.value[i])
    ensures r.Err? ==> exists i :: 0 <= i < |children| && Build(children[i], links) == Err(r.error)
                                  && forall j :: 0 <= j < i ==> Build(children[j], links).Ok?
    decreases children
  {
    if |children| == 0 then Ok([])
    else
      var first :- Build(children[0], links);
      var rest :- BuildAll(children[1..], links);
      assert forall i :: 1 <= i < |children| ==> children[i] == children[1..][i - 1];
      Ok([first] + rest)
  }

  // ------------------------------------------------------------------
  // Properties of the quote stripping
  // ------------------------------------------------------------------

  /** Leading quotes in front of any text are all dropped. */
  lemma {:induction false} LeadingQuotesDropped(lead: string, x: string)
    requires AllQuotes(lead)
    ensures StripLeadingQuotes(lead + x) == StripLeadingQuotes(x)
  {
    if |lead| > 0 {
      assert (lead + x)[0] == lead[0] == '"';
      assert (lead + x)[1..] == lead[1..] + x;
      LeadingQuotesDropped(lead[1..], x);
    } else {
      assert lead + x == x;
    }
  }

  /** Trailing quotes behind any text are all dropped. */
  lemma {:induction false} TrailingQuotesDropped(x: string, trail: string)
    requires AllQuotes(trail)
    ensures StripTrailingQuotes(x + trail) == StripTrailingQuotes(x)
  {
    if |trail| > 0 {
      var n := |x + trail|;
      assert (x + trail)[n - 1] == trail[|trail| - 1] == '"';
      assert (x + trail)[..n - 1] == x + trail[..|trail| - 1];
      TrailingQuotesDropped(x, trail[..|trail| - 1]);
    } else {
      assert x + trail == x;
    }
  }

  /** A text made of quotes only strips to the empty text. */
  lemma AllQuotesStripToEmpty(s: string)
    requires AllQuotes(s)
    ensures StripQuotes(s) == []
  {
    assert s + [] == s;
    LeadingQuotesDropped(s, []);
  }

  /** `strip('"')` is determined by the decomposition it promises: whatever
      runs of quotes surround a core that neither starts nor ends with a
      quote, the result is that core. */
  lemma StripQuotesUnique(lead: string, core: string, trail: string)
    requires AllQuotes(lead) && AllQuotes(trail)
    requires |core| == 0 || (core[0] != '"' && core[|core| - 1] != '"')
    ensures StripQuotes(lead + core + trail) == core
  {
    if |core| == 0 {
      var s := lead + core + trail;
      assert s == lead + trail;
      assert forall k :: 0 <= k < |s| ==> s[k] == (if k < |lead| then lead[k] else trail[k - |lead|]);
      AllQuotesStripToEmpty(s);
    } else {
      assert lead + core + trail == lead + (core + trail);
      LeadingQuotesDropped(lead, core + trail);
      assert (core + trail)[0] == core[0];
      TrailingQuotesDropped(core, trail);
    }
  }

  // ------------------------------------------------------------------
  // One case per tag
  // ------------------------------------------------------------------

  /** The tags the translation knows, each selecting its own branch; every
      other tag selects none. */
  lemma FormsOfTags(tag: string)
    ensures FormOf("alternatives") == ChoiceForm
    ensures FormOf("alternative") == SequenceForm && FormOf("grouping") == SequenceForm
    ensures FormOf("optional") == OptionalForm && FormOf("oneormore") == OneOrMoreForm
    ensures FormOf("text") == TextForm && FormOf("ruleid") == RuleIdForm
    ensures FormOf(tag) == NoForm <==>
              tag !in ["alternatives", "alternative", "grouping", "optional", "oneormore", "text", "ruleid"]
  {
  }

  /** An `alternatives` node with k children becomes a choice with default
      index 0 and exactly k branches, branch i being the translation of
      child i; it fails with the error of its first child that fails. */
  lemma AlternativesBecomeChoice(tag: string, children: seq<Tree>, links: map<string, string>)
    requires FormOf(tag) == ChoiceForm
    ensures var r := Build(Node(tag, children), links);
      && (r.Ok? <==> forall i :: 0 <= i < |children| ==> Build(children[i], links).Ok?)
      && (r.Ok? ==> r.value.Choice? && r.value.defaultIndex == 0 && |r.value.branches| == |children|)
      && (r.Ok? ==> forall i :: 0 <= i < |children| ==> Build(children[i], links) == Ok(r.value.branches[i]))
      && (r.Err? ==> exists i :: 0 <= i < |children| && Build(children[i], links) == Err(r.error)
                                && forall j :: 0 <= j < i ==> Build(children[j], links).Ok?)
  {
  }

  /** An `alternative` or a `grouping` node becomes a sequence of the same
      length whose items are its children's translations in order; it fails
      with the error of its first child that fails. */
  lemma AlternativeBecomesSequence(tag: string, children: seq<Tree>, links: map<string, string>)
    requires FormOf(tag) == SequenceForm
    ensures var r := Build(Node(tag, children), links);
      && (r.Ok? <==> forall i :: 0 <= i < |children| ==> Build(children[i], links).Ok?)
      && (r.Ok? ==> r.value.Sequence? && |r.value.items| == |children|)
      && (r.Ok? ==> forall i :: 0 <= i < |children| ==> Build(children[i], links) == Ok(r.value.items[i]))
      && (r.Err? ==> exists i :: 0 <= i < |children| && Build(children[i], links) == Err(r.error)
                                && forall j :: 0 <= j < i ==> Build(children[j], links).Ok?)
  {
  }

  /** `optional` and `oneormore` wrap the translation of their first child
      and ignore any further children; without a child they fail. */
  lemma WrapperWrapsFirstChild(tag: string, children: seq<Tree>, links: map<string, string>)
    requires FormOf(tag) == OptionalForm || FormOf(tag) == OneOrMoreForm
    ensures var r := Build(Node(tag, children), links);
      && (|children| == 0 ==> r == Err(Malformed))
      && (|children| > 0 ==>
            && r == Build(Node(tag, children[..1]), links)
            && (r.Ok? <==> Build(children[0], links).Ok?)
            && (r.Err? ==> r.error == Build(children[0], links).error)
            && (r.Ok? && FormOf(tag) == OptionalForm ==> r.value == Optional(Build(children[0], links).value))
            && (r.Ok? && FormOf(tag) == OneOrMoreForm ==> r.value == OneOrMore(Build(children[0], links).value)))
  {
  }

  /** A `text` node becomes a terminal labelled with its token's text less
      the surrounding quotes; the label starts and ends with no quote. */
  lemma TextBecomesTerminal(tag: string, kind: string, value: string, rest: seq<Tree>, links: map<string, string>)
    requires FormOf(tag) == TextForm
    ensures var r := Build(Node(tag, [Token(kind, value)] + rest), links);
      && r == Ok(Terminal(StripQuotes(value)))
      && (|r.value.text| == 0 || (r.value.text[0] != '"' && r.value.text[|r.value.text| - 1] != '"'))
  {
    assert ([Token(kind, value)] + rest)[0] == Token(kind, value);
  }

  /** A `ruleid` node becomes a reference titled with the rule's name, and
      linked to `links[name]` exactly when `name` is in the link table. */
  lemma RuleIdBecomesReference(tag: string, kind: string, name: string, rest: seq<Tree>, links: map<string, string>)
    requires FormOf(tag) == RuleIdForm
    ensures var r := Build(Node(tag, [Token(kind, name)] + rest), links);
      && r.Ok? && r.value.NonTerminal?
      && r.value.name == name && r.value.title == name
      && (r.value.href.Some? <==> name in links)
      && (name in links ==> r.value.href.value == links[name])
  {
    assert ([Token(kind, name)] + rest)[0] == Token(kind, name);
  }

  /** A `text` or `ruleid` node whose first child is missing or is not a
      token fails, as does a token where a rule node is expected. */
  lemma LeafWithoutTokenFails(tag: string, children: seq<Tree>, links: map<string, string>)
    requires FormOf(tag) == TextForm || FormOf(tag) == RuleIdForm
    requires |children| == 0 || children[0].Node?
    ensures Build(Node(tag, children), links) == Err(Malformed)
  {
  }

  /** Any other tag is refused with the tag it carries. */
  lemma OtherTagFails(tag: string, children: seq<Tree>, links: map<string, string>)
    requires FormOf(tag) == NoForm
    ensures Build(Node(tag, children), links) == Err(NonMatching(tag))
  {
  }

  // ------------------------------------------------------------------
  // Properties of the whole translation
  // ------------------------------------------------------------------

  /** The trees the translation accepts: every node has a tag with a case,
      the wrappers have a first child, the leaves have a token first, and
      this holds of every child the translation visits. */
  predicate Accepted(t: Tree)
    decreases t
  {
    match t
    case Token(_, _) => false
    case Node(tag, children) =>
      match FormOf(tag)
      case ChoiceForm => forall i :: 0 <= i < |children| ==> Accepted(children[i])
      case SequenceForm => forall i :: 0 <= i < |children| ==> Accepted(children[i])
      case OptionalForm => |children| > 0 && Accepted(children[0])
      case OneOrMoreForm => |children| > 0 && Accepted(children[0])
      case TextForm => |children| > 0 && children[0].Token?
      case RuleIdForm => |children| > 0 && children[0].Token?
      case NoForm => false
  }

  /** The translation succeeds exactly on accepted trees, whatever the link
      table. */
  lemma {:induction false} BuildSucceedsIffAccepted(t: Tree, links: map<string, string>)
    ensures Build(t, links).Ok? <==> Accepted(t)
    decreases t
  {
    match t
    case Token(_, _) =>
    case Node(tag, children) =>
      forall i | 0 <= i < |children| {
        BuildSucceedsIffAccepted(children[i], links);
      }
  }

  /** Every rule reference in `p` is titled with its name and linked as the
      table says, and every terminal label is free of surrounding quotes. */
  predicate Decorated(p: Prim, links: map<string, string>)
    decreases p
  {
    match p
    case Choice(_, branches) => forall i :: 0 <= i < |branches| ==> Decorated(branches[i], links)
    case Sequence(items) => forall i :: 0 <= i < |items| ==> Decorated(items[i], links)
    case Optional(item) => Decorated(item, links)
    case OneOrMore(item) => Decorated(item, links)
    case Terminal(text) => |text| == 0 || (text[0] != '"' && text[|text| - 1] != '"')
    case NonTerminal(name, title, href) =>
      title == name && href == (if name in links then Some(links[name]) else None)
  }

  /** Everything the translation produces is decorated from the link table. */
  lemma {:induction false} BuildDecorates(t: Tree, links: map<string, string>)
    requires Build(t, links).Ok?
    ensures Decorated(Build(t, links).value, links)
    decreases t
  {
    match t
    case Node(tag, children) =>
      match FormOf(tag)
      case ChoiceForm => BuildAllDecorates(children, links);
      case SequenceForm => BuildAllDecorates(children, links);
      case OptionalForm => BuildDecorates(children[0], links);
      case OneOrMoreForm => BuildDecorates(children[0], links);
      case TextForm =>
      case RuleIdForm =>
  }

  /** The translations of all children are decorated, which is what a choice
      or a sequence built from them needs. */
  lemma {:induction false} BuildAllDecorates(children: seq<Tree>, links: map<string, string>)
    requires BuildAll(children, links).Ok?
    ensures forall i :: 0 <= i < |children| ==> Decorated(BuildAll(children, links).value[i], links)
    decreases children
  {
    var ps := BuildAll(children, links).value;
    forall i | 0 <= i < |children|
      ensures Decorated(ps[i], links)
    {
      assert Build(children[i], links) == Ok(ps[i]);
      BuildDecorates(children[i], links);
    }
  }

  /** `p` with every link removed. */
  function Unlinked(p: Prim): Prim
    decreases p
  {
    match p
    case Choice(d, branches) => Choice(d, UnlinkedAll(branches))
    case Sequence(items) => Sequence(UnlinkedAll(items))
    case Optional(item) => Optional(Unlinked(item))
    case OneOrMore(item) => OneOrMore(Unlinked(item))
    case Terminal(text) => Terminal(text)
    case NonTerminal(name, title, _) => NonTerminal(name, title, None)
  }

  /** Every element of `ps` with its links removed. */
  function UnlinkedAll(ps: seq<Prim>): (r: seq<Prim>)
    ensures |r| == |ps| && forall i :: 0 <= i < |ps| ==> r[i] == Unlinked(ps[i])
    decreases ps
  {
    if |ps| == 0 then [] else [Unlinked(ps[0])] + UnlinkedAll(ps[1..])
  }

  /** The link table only decorates: where the translation succeeds with
      it, it succeeds without it too, and draws the same shapes and labels.
      (That it fails on the same trees either way is
      `BuildSucceedsIffAccepted`.) */
  lemma {:induction false} LinksOnlyDecorate(t: Tree, links: map<string, string>)
    requires Build(t, links).Ok?
    ensures Build(t, map[]) == Ok(Unlinked(Build(t, links).value))
    decreases t
  {
    match t
    case Node(tag, children) =>
      match FormOf(tag)
      case ChoiceForm =>
        LinksOnlyDecorateAll(children, links);
        UnlinkedList(tag, children, links);
      case SequenceForm =>
        LinksOnlyDecorateAll(children, links);
        UnlinkedList(tag, children, links);
      case OptionalForm =>
        LinksOnlyDecorate(children[0], links);
        UnlinkedWrapper(tag, children, links);
      case OneOrMoreForm =>
        LinksOnlyDecorate(children[0], links);
        UnlinkedWrapper(tag, children, links);
      case TextForm =>
        var leaf := children[0];
        assert children == [Token(leaf.kind, leaf.value)] + children[1..];
        UnlinkedText(tag, leaf.kind, leaf.value, children[1..], links);
      case RuleIdForm => UnlinkedRuleId(tag, children, links);
  }

  /** The step of `LinksOnlyDecorate` for a choice or a sequence. */
  lemma UnlinkedList(tag: string, children: seq<Tree>, links: map<string, string>)
    requires FormOf(tag) == ChoiceForm || FormOf(tag) == SequenceForm
    requires BuildAll(children, links).Ok?
    requires BuildAll(children, map[]) == Ok(UnlinkedAll(BuildAll(children, links).value))
    ensures Build(Node(tag, children), links).Ok?
    ensures Build(Node(tag, children), map[]) == Ok(Unlinked(Build(Node(tag, children), links).value))
  {
  }

  /** The step of `LinksOnlyDecorate` for an optional or a repeated item. */
  lemma UnlinkedWrapper(tag: string, children: seq<Tree>, links: map<string, string>)
    requires FormOf(tag) == OptionalForm || FormOf(tag) == OneOrMoreForm
    requires |children| > 0 && Build(children[0], links).Ok?
    requires Build(children[0], map[]) == Ok(Unlinked(Build(children[0], links).value))
    ensures Build(Node(tag, children), links).Ok?
    ensures Build(Node(tag, children), map[]) == Ok(Unlinked(Build(Node(tag, children), links).value))
  {
  }

  /** `LinksOnlyDecorate` for a terminal. */
  lemma UnlinkedText(tag: string, kind: string, value: string, rest: seq<Tree>, links: map<string, string>)
    requires FormOf(tag) == TextForm
    ensures Build(Node(tag, [Token(kind, value)] + rest), links).Ok?
    ensures Build(Node(tag, [Token(kind, value)] + rest), map[])
         == Ok(Unlinked(Build(Node(tag, [Token(kind, value)] + rest), links).value))
  {
    TextBecomesTerminal(tag, kind, value, rest, links);
    TextBecomesTerminal(tag, kind, value, rest, map[]);
  }

  /** `LinksOnlyDecorate` for a rule reference. */
  lemma UnlinkedRuleId(tag: string, children: seq<Tree>, links: map<string, string>)
    requires FormOf(tag) == RuleIdForm
    requires Build(Node(tag, children), links).Ok?
    ensures Build(Node(tag, children), map[]) == Ok(Unlinked(Build(Node(tag, children), links).value))
  {
    var name := children[0].value;
    assert Build(Node(tag, children), links) == Ok(Reference(name, links));
    assert Build(Node(tag, children), map[]) == Ok(NonTerminal(name, name, None));
  }

  /** `LinksOnlyDecorate` for the children of a choice or a sequence. */
  lemma {:induction false} LinksOnlyDecorateAll(children: seq<Tree>, links: map<string, string>)
    requires BuildAll(children, links).Ok?
    ensures BuildAll(children, map[]) == Ok(UnlinkedAll(BuildAll(children, links).value))
    decreases children
  {
    var ps := BuildAll(children, links).value;
    forall i | 0 <= i < |children|
      ensures Build(children[i], map[]) == Ok(Unlinked(ps[i]))
    {
      assert Build(children[i], links) == Ok(ps[i]);
      LinksOnlyDecorate(children[i], links);
    }
    assert BuildAll(children, map[]).value == UnlinkedAll(ps);
  }

  /** A quoted one-character string literal becomes the terminal drawn with
      that character. */
  lemma QuotedCharBuilds(tag: string, kind: string, c: char, links: map<string, string>)
    requires FormOf(tag) == TextForm && c != '"'
    ensures Build(Node(tag, [Token(kind, ['"', c, '"'])]), links) == Ok(Terminal([c]))
  {
    assert ['"', c, '"'] == ['"'] + [c] + ['"'];
    StripQuotesUnique(['"'], [c], ['"']);
  }

  /** The translations of one or two children that both succeed, in order. */
  lemma BuildAllSmall(x: Tree, y: Tree, px: Prim, py: Prim, links: map<string, string>)
    requires Build(x, links) == Ok(px) && Build(y, links) == Ok(py)
    ensures BuildAll([x], links) == Ok([px])
    ensures BuildAll([x, y], links) == Ok([px, py])
  {
    var one := BuildAll([x], links);
    assert [x][0] == x;
    assert one.Ok? && |one.value| == 1 && one.value[0] == px;
    assert one.value == [px];
    var two := BuildAll([x, y], links);
    assert [x, y][0] == x && [x, y][1] == y;
    assert two.Ok? && |two.value| == 2 && two.value[0] == px && two.value[1] == py;
    assert two.value == [px, py];
  }

  /** A right-hand side shaped `alternatives[alternative[text "a"],
      alternative[text "b", text "c"]]`, the shape assumed for `"a" | "b" "c"`,
      becomes a two-way choice whose first branch holds the terminal `a` and
      whose second is the sequence of terminals `b`, `c`. */
  lemma ChoiceExample(links: map<string, string>)
    ensures Build(Node("alternatives", [
                    Node("alternative", [Node("text", [Token("STRING", "\"a\"")])]),
                    Node("alternative", [Node("text", [Token("STRING", "\"b\"")]),
                                         Node("text", [Token("STRING", "\"c\"")])])]), links)
         == Ok(Choice(0, [Sequence([Terminal("a")]), Sequence([Terminal("b"), Terminal("c")])]))
  {
    FormsOfTags("alternatives");
    var a := Node("text", [Token("STRING", "\"a\"")]);
    var b := Node("text", [Token("STRING", "\"b\"")]);
    var c := Node("text", [Token("STRING", "\"c\"")]);
    QuotedCharBuilds("text", "STRING", 'a', links);
    QuotedCharBuilds("text", "STRING", 'b', links);
    QuotedCharBuilds("text", "STRING", 'c', links);
    BuildAllSmall(b, c, Terminal("b"), Terminal("c"), links);
    BuildAllSmall(a, a, Terminal("a"), Terminal("a"), links);
    var first := Node("alternative", [a]);
    var second := Node("alternative", [b, c]);
    assert Build(first, links) == Ok(Sequence([Terminal("a")]));
    assert Build(second, links) == Ok(Sequence([Terminal("b"), Terminal("c")]));
    BuildAllSmall(first, second, Sequence([Terminal("a")]), Sequence([Terminal("b"), Terminal("c")]), links);
  }
}
