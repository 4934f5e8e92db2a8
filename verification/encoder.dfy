/**
  The nested-scope ANSI encoder run by the copy button: a walk over the
  editor's child nodes that keeps an explicit stack of `{fg, bg, st}` states,
  opens a styled element with one SGR sequence, resets after it and
  re-opens the enclosing colours; and the `ansi` fence around the result.
*/
module Encoder {
  import opened Wrappers
  import opened Sgr

  /**
    An editor node. Every HTML element other than a line break is `Styled`; its
    code is the number read from the part of its class name between the
    first and second `-`. That code is `None` (JavaScript's `NaN`) when the
    class name has no `-` or the part is neither blank nor a number; a
    blank part, as in `ansi-` or `a--b`, reads as 0.
  */
  datatype Node = Text(s: string) | Break | Styled(code: Option<nat>, children: seq<Node>)

  /** The attributes in force in one scope; 2 means "not set". */
  datatype State = State(fg: nat, bg: nat, st: nat)

  const Unset: nat := 2
  const Initial: State := State(Unset, Unset, Unset)

  function Top(states: seq<State>): State
    requires |states| > 0
  {
    states[|states| - 1]
  }

  /** The scope opened by a node with `code` inside `parent`: a copy with at most one field replaced. */
  function Derive(parent: State, code: Option<nat>): (s: State)
    ensures code.None? ==> s == parent
    ensures code.Some? && code.value < 30 ==> s == parent.(st := code.value)
    ensures code.Some? && 30 <= code.value < 40 ==> s == parent.(fg := code.value)
    ensures code.Some? && code.value >= 40 ==> s == parent.(bg := code.value)
  {
    match code
    case None => parent
    case Some(c) =>
      var s1 := if c < 30 then parent.(st := c) else parent;
      var s2 := if c >= 30 && c < 40 then s1.(fg := c) else s1;
      if c >= 40 then s2.(bg := c) else s2
  }

  /** Whether the opening sequence names the background (a missing code compares false). */
  predicate IsBackground(code: Option<nat>) {
    code.Some? && code.value >= 40
  }

  /** The sequence emitted on entering a scope. */
  function Open(s: State, code: Option<nat>): string {
    Sequence(s.st, if IsBackground(code) then s.bg else s.fg)
  }

  /** The sequences that bring back the enclosing colours after a reset. */
  function Reopen(p: State): string {
    (if p.fg != Unset then Sequence(p.st, p.fg) else []) +
    (if p.bg != Unset then Sequence(p.st, p.bg) else [])
  }

  /** Encodes one node; the stack comes back exactly as it went in. */
  function EncodeNode(node: Node, states: seq<State>): (r: (string, seq<State>))
    requires |states| > 0
    ensures r.1 == states
    decreases node
  {
    match node
    case Text(s) => (s, states)
    case Break => ("\n", states)
    case Styled(code, children) =>
      var next := Derive(Top(states), code);
      var pushed := states + [next];
      var (inner, after) := EncodeNodes(children, pushed);
      var popped := after[..|after| - 1];
      (Open(next, code) + inner + Reset + Reopen(Top(popped)), popped)
  }

  /** Encodes a sequence of siblings left to right, threading the shared stack. */
  function EncodeNodes(nodes: seq<Node>, states: seq<State>): (r: (string, seq<State>))
    requires |states| > 0
    ensures r.1 == states
    decreases nodes
  {
    if nodes == [] then ([], states)
    else
      var (head, after) := EncodeNode(nodes[0], states);
      var (rest, final) := EncodeNodes(nodes[1..], after);
      (head + rest, final)
  }

  /** The body for the editor's top-level nodes, started from the all-unset state. */
  function Body(nodes: seq<Node>): string {
    EncodeNodes(nodes, [Initial]).0
  }

  const FenceOpen: string := "```ansi\n"
  const FenceClose: string := "\n```"

  /** The exported text: the body inside an `ansi` code fence. */
  function Export(nodes: seq<Node>): string {
    FenceOpen + Body(nodes) + FenceClose
  }

  /** Reading a fenced block back: its body, or `None` when the text is not an `ansi` fence. */
  function Unfence(text: string): (body: Option<string>)
    ensures body.Some? ==> text == FenceOpen + body.value + FenceClose
  {
    if |text| >= |FenceOpen| + |FenceClose|
       && text[..|FenceOpen|] == FenceOpen
       && text[|text| - |FenceClose|..] == FenceClose
    then
      var b := text[|FenceOpen|..|text| - |FenceClose|];
      assert text == text[..|FenceOpen|] + b + text[|text| - |FenceClose|..];
      Some(b)
    else None
  }
}
