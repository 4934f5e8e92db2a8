/**
  Laws of the ANSI encoder. The stack-threading encoder is compared with a
  stack-free reference renderer that passes the enclosing scope's state
  down the tree; from that equation follow the sibling law, the shape of a
  styled element's output, and preservation of the visible text.
*/
module EncoderLaws {
  import opened Wrappers
  import opened Sgr
  import opened Encoder

  /** Reference rendering of one node inside a scope whose state is `parent`. */
  function Render(node: Node, parent: State): string
    decreases node
  {
    match node
    case Text(s) => s
    case Break => "\n"
    case Styled(code, children) =>
      var scope := Derive(parent, code);
      Open(scope, code) + RenderAll(children, scope) + Reset + Reopen(parent)
  }

  function RenderAll(nodes: seq<Node>, parent: State): string
    decreases nodes
  {
    if nodes == [] then [] else Render(nodes[0], parent) + RenderAll(nodes[1..], parent)
  }

  /** The text a reader sees: text nodes as written, a line break as a newline. */
  function Visible(node: Node): string
    decreases node
  {
    match node
    case Text(s) => s
    case Break => "\n"
    case Styled(_, children) => VisibleAll(children)
  }

  function VisibleAll(nodes: seq<Node>): string
    decreases nodes
  {
    if nodes == [] then [] else Visible(nodes[0]) + VisibleAll(nodes[1..])
  }

  /** No text node carries an escape character of its own. */
  predicate PlainNode(node: Node)
    decreases node
  {
    match node
    case Text(s) => Plain(s)
    case Break => true
    case Styled(_, children) => PlainNodes(children)
  }

  predicate PlainNodes(nodes: seq<Node>)
    decreases nodes
  {
    nodes == [] || (PlainNode(nodes[0]) && PlainNodes(nodes[1..]))
  }

  /** The stack encoder produces the reference rendering under the stack's top. */
  lemma {:induction false} EncodeNodeMatchesRender(node: Node, states: seq<State>)
    requires |states| > 0
    ensures EncodeNode(node, states).0 == Render(node, Top(states))
    decreases node
  {
    match node
    case Text(_) =>
    case Break =>
    case Styled(code, children) =>
      var next := Derive(Top(states), code);
      var pushed := states + [next];
      EncodeNodesMatchRender(children, pushed);
      assert pushed[..|pushed| - 1] == states;
  }

  lemma {:induction false} EncodeNodesMatchRender(nodes: seq<Node>, states: seq<State>)
    requires |states| > 0
    ensures EncodeNodes(nodes, states).0 == RenderAll(nodes, Top(states))
    decreases nodes
  {
    if nodes != [] {
      EncodeNodeMatchesRender(nodes[0], states);
      EncodeNodesMatchRender(nodes[1..], states);
    }
  }

  /** Only the top of the stack influences the output. */
  lemma StackBelowTopIrrelevant(nodes: seq<Node>, s1: seq<State>, s2: seq<State>)
    requires |s1| > 0 && |s2| > 0 && Top(s1) == Top(s2)
    ensures EncodeNodes(nodes, s1).0 == EncodeNodes(nodes, s2).0
  {
    EncodeNodesMatchRender(nodes, s1);
    EncodeNodesMatchRender(nodes, s2);
  }

  lemma {:induction false} RenderAllAppend(a: seq<Node>, b: seq<Node>, parent: State)
    ensures RenderAll(a + b, parent) == RenderAll(a, parent) + RenderAll(b, parent)
    decreases |a|
  {
    if a == [] {
      assert a + b == b;
    } else {
      assert (a + b)[0] == a[0];
      assert (a + b)[1..] == a[1..] + b;
      RenderAllAppend(a[1..], b, parent);
    }
  }

  /** Siblings see the same enclosing state: the output of a concatenation is the concatenation of outputs. */
  lemma EncodeNodesAppend(a: seq<Node>, b: seq<Node>, states: seq<State>)
    requires |states| > 0
    ensures EncodeNodes(a + b, states).0 == EncodeNodes(a, states).0 + EncodeNodes(b, states).0
  {
    EncodeNodesMatchRender(a + b, states);
    EncodeNodesMatchRender(a, states);
    EncodeNodesMatchRender(b, states);
    RenderAllAppend(a, b, Top(states));
  }

  /** A text node contributes exactly its text and a line break exactly a newline. */
  lemma LeafContributions(s: string, rest: seq<Node>, states: seq<State>)
    requires |states| > 0
    ensures EncodeNodes([Text(s)] + rest, states).0 == s + EncodeNodes(rest, states).0
    ensures EncodeNodes([Break] + rest, states).0 == "\n" + EncodeNodes(rest, states).0
  {
  }

  /**
    A styled element opens with `ESC[st;x m`, where `st` is the code if it
    is below 30 and the parent's otherwise, and `x` is the code if it is a
    colour and the parent's foreground otherwise; its children are encoded
    in the derived scope; then comes the reset and the parent's colours.
  */
  lemma StyledElement(code: Option<nat>, children: seq<Node>, states: seq<State>)
    requires |states| > 0
    ensures var p := Top(states);
      var open := match code
        case None => Sequence(p.st, p.fg)
        case Some(c) => if c < 30 then Sequence(c, p.fg) else Sequence(p.st, c);
      EncodeNodes([Styled(code, children)], states).0
        == open + EncodeNodes(children, states + [Derive(p, code)]).0 + Reset + Reopen(p)
  {
  }

  /** After a reset the parent's foreground is re-opened exactly when it is set, then likewise its background. */
  lemma ReopenOnlySetColours(p: State)
    ensures p.fg == Unset && p.bg == Unset <==> Reopen(p) == []
    ensures p.fg != Unset && p.bg == Unset ==> Reopen(p) == Sequence(p.st, p.fg)
    ensures p.fg == Unset && p.bg != Unset ==> Reopen(p) == Sequence(p.st, p.bg)
    ensures p.fg != Unset && p.bg != Unset ==> Reopen(p) == Sequence(p.st, p.fg) + Sequence(p.st, p.bg)
  {
  }

  /** At the top level nothing is re-opened after a reset, and the unset style contributes 2. */
  lemma TopLevelStyled(code: nat, children: seq<Node>)
    ensures code < 30 ==>
      Body([Styled(Some(code), children)]) == Sequence(code, Unset) + RenderAll(children, Initial.(st := code)) + Reset
    ensures 30 <= code < 40 ==>
      Body([Styled(Some(code), children)]) == Sequence(Unset, code) + RenderAll(children, Initial.(fg := code)) + Reset
    ensures code >= 40 ==>
      Body([Styled(Some(code), children)]) == Sequence(Unset, code) + RenderAll(children, Initial.(bg := code)) + Reset
  {
    EncodeNodesMatchRender([Styled(Some(code), children)], [Initial]);
  }

  /** Without styled elements the body is the plain text, with no escape character when the text has none. */
  lemma {:induction false} UnstyledTree(nodes: seq<Node>, states: seq<State>)
    requires |states| > 0
    requires forall i :: 0 <= i < |nodes| ==> !nodes[i].Styled?
    ensures EncodeNodes(nodes, states).0 == VisibleAll(nodes)
    ensures PlainNodes(nodes) ==> Plain(EncodeNodes(nodes, states).0)
    decreases nodes
  {
    if nodes != [] {
      UnstyledTree(nodes[1..], states);
      assert EncodeNodes(nodes, states).0 == Visible(nodes[0]) + VisibleAll(nodes[1..]);
      if PlainNodes(nodes) {
        assert Plain(Visible(nodes[0])) by {
          assert PlainNode(nodes[0]);
          if nodes[0].Break? {
            assert Visible(nodes[0]) == "\n";
            assert "\n"[0] != Esc;
          }
        }
        PlainAppend(Visible(nodes[0]), VisibleAll(nodes[1..]));
      }
      assert forall i :: 0 <= i < |nodes[1..]| ==> !nodes[1..][i].Styled?;
    }
  }

  lemma {:induction false} RenderKeepsVisible(node: Node, parent: State)
    requires PlainNode(node)
    ensures Closed(Render(node, parent)) && Strip(Render(node, parent)) == Visible(node)
    decreases node
  {
    match node
    case Text(s) =>
      PlainIsClosed(s);
      StripRemovesEscapes(s);
    case Break =>
      assert "\n"[0] != Esc;
      PlainIsClosed("\n");
      StripRemovesEscapes("\n");
    case Styled(code, children) =>
      var scope := Derive(parent, code);
      RenderAllKeepsVisible(children, scope);
      SequenceInvisible(scope.st, if IsBackground(code) then scope.bg else scope.fg);
      ReopenInvisible(parent);
      ScopeInvisibleFrame(Open(scope, code), RenderAll(children, scope), Reopen(parent));
  }

  lemma {:induction false} RenderAllKeepsVisible(nodes: seq<Node>, parent: State)
    requires PlainNodes(nodes)
    ensures Closed(RenderAll(nodes, parent)) && Strip(RenderAll(nodes, parent)) == VisibleAll(nodes)
    decreases nodes
  {
    if nodes == [] {
    } else {
      RenderKeepsVisible(nodes[0], parent);
      RenderAllKeepsVisible(nodes[1..], parent);
      StripAppend(Render(nodes[0], parent), RenderAll(nodes[1..], parent));
    }
  }

  lemma ReopenInvisible(p: State)
    ensures Closed(Reopen(p)) && Strip(Reopen(p)) == []
  {
    var f := if p.fg != Unset then Sequence(p.st, p.fg) else [];
    var b := if p.bg != Unset then Sequence(p.st, p.bg) else [];
    SequenceInvisible(p.st, p.fg);
    SequenceInvisible(p.st, p.bg);
    StripAppend(f, b);
  }

  /**
    Removing the control sequences from the body gives back exactly the
    visible text of the editor, and no control sequence is left unfinished.
  */
  lemma BodyKeepsVisibleText(nodes: seq<Node>)
    requires PlainNodes(nodes)
    ensures Closed(Body(nodes))
    ensures Strip(Body(nodes)) == VisibleAll(nodes)
  {
    EncodeNodesMatchRender(nodes, [Initial]);
    RenderAllKeepsVisible(nodes, Initial);
  }

  /** The fence is read back to the body; an empty editor exports an empty fenced block. */
  lemma ExportUnfences(nodes: seq<Node>)
    ensures Unfence(Export(nodes)) == Some(Body(nodes))
    ensures nodes == [] ==> Export(nodes) == "```ansi\n\n```"
  {
  }
}
