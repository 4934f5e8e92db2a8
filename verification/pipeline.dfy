/**
  From a style button to the copied text: a span inserted by the handler,
  encoded alone in the editor or at any top-level position among other nodes.
*/
module CopyPipeline {
  import opened Wrappers
  import opened Decimal
  import opened Registry
  import opened Sgr
  import opened Encoder
  import opened EncoderLaws
  import opened Selection

  lemma SingleSpanBody(code: Option<nat>, selection: string)
    ensures Body([Styled(code, [Text(selection)])])
      == Open(Derive(Initial, code), code) + selection + Reset
  {
    StyledElement(code, [Text(selection)], [Initial]);
    var scope := Derive(Initial, code);
    UnstyledTree([Text(selection)], [Initial, scope]);
  }

  /** A span holding one text node, at any top-level position, encodes between its neighbours' encodings. */
  lemma SpanInContext(code: Option<nat>, selection: string, pre: seq<Node>, post: seq<Node>)
    ensures Body(pre + [Styled(code, [Text(selection)])] + post)
      == Body(pre) + Open(Derive(Initial, code), code) + selection + Reset + Body(post)
  {
    var span := [Styled(code, [Text(selection)])];
    EncodeNodesAppend(pre + span, post, [Initial]);
    EncodeNodesAppend(pre, span, [Initial]);
    SingleSpanBody(code, selection);
  }

  /**
    As written, whatever code is applied, the copied text opens the span
    with `ESC[2;2m`, wherever the span sits at the top level: the applied
    colour or attribute never reaches the export.
  */
  lemma AppliedStyleLostOnExport(selection: string, code: string, pre: seq<Node>, post: seq<Node>)
    requires !Blank(selection)
    requires ApplyStyle(selection, code).Success?
    ensures ApplyStyle(selection, code).value.Insert?
    ensures Export([ApplyStyle(selection, code).value.span])
      == FenceOpen + Sequence(Unset, Unset) + selection + Reset + FenceClose
    ensures Body(pre + [ApplyStyle(selection, code).value.span] + post)
      == Body(pre) + Sequence(Unset, Unset) + selection + Reset + Body(post)
  {
    var span := ApplyStyle(selection, code).value.span;
    assert span == Styled(None, [Text(selection)]);
    UntaggedSpanExport(selection);
    SpanInContext(None, selection, pre, post);
    assert Open(Derive(Initial, None), None) == Sequence(Unset, Unset);
  }

  /** A span without a code, alone in the editor, exports with the unset values in both slots. */
  lemma UntaggedSpanExport(selection: string)
    ensures Export([Styled(None, [Text(selection)])])
      == FenceOpen + Sequence(Unset, Unset) + selection + Reset + FenceClose
  {
    SingleSpanBody(None, selection);
    var open := Open(Derive(Initial, None), None);
    assert open == Sequence(Unset, Unset);
    var body := Body([Styled(None, [Text(selection)])]);
    assert FenceOpen + body + FenceClose == FenceOpen + open + selection + Reset + FenceClose;
  }

  /** A span carrying a code, alone in the editor, exports with that code in its opening sequence. */
  lemma TaggedSpanExport(c: nat, selection: string)
    ensures Export([Styled(Some(c), [Text(selection)])])
      == FenceOpen + (if c < 30 then Sequence(c, Unset) else Sequence(Unset, c)) + selection + Reset + FenceClose
  {
    SingleSpanBody(Some(c), selection);
    var open := Open(Derive(Initial, Some(c)), Some(c));
    assert open == if c < 30 then Sequence(c, Unset) else Sequence(Unset, c);
    var body := Body([Styled(Some(c), [Text(selection)])]);
    assert FenceOpen + body + FenceClose == FenceOpen + open + selection + Reset + FenceClose;
  }

  /**
    With the span tagged by its code, the copied text opens the span with
    the code in the attribute slot (codes below 30) or the colour slot, the
    other slot holding the unset value 2.
  */
  lemma AppliedStyleReachesExport(selection: string, code: string, pre: seq<Node>, post: seq<Node>)
    requires !Blank(selection)
    requires Lookup(code).Some?
    ensures ApplyStyleTagged(selection, code).Success?
    ensures ApplyStyleTagged(selection, code).value.Insert?
    ensures var span := ApplyStyleTagged(selection, code).value.span;
      var c := span.code.value;
      && Dec(c) == code
      && Export([span])
         == FenceOpen + (if c < 30 then Sequence(c, Unset) else Sequence(Unset, c)) + selection + Reset + FenceClose
    ensures var span := ApplyStyleTagged(selection, code).value.span;
      var c := span.code.value;
      Body(pre + [span] + post)
        == Body(pre) + (if c < 30 then Sequence(c, Unset) else Sequence(Unset, c)) + selection + Reset + Body(post)
  {
    var span := ApplyStyleTagged(selection, code).value.span;
    var c := span.code.value;
    assert span == Styled(Some(c), [Text(selection)]);
    TaggedSpanExport(c, selection);
    SpanInContext(Some(c), selection, pre, post);
    assert Open(Derive(Initial, Some(c)), Some(c)) == if c < 30 then Sequence(c, Unset) else Sequence(Unset, c);
  }
}
