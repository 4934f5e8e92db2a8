/**
  The style buttons' handler: the blank-selection guard, the choice of
  inline style from the code's leading character, and the span that
  replaces the selection.
*/
module Selection {
  import opened Wrappers
  import opened Decimal
  import opened Registry
  import opened Encoder

  /** The characters `String.prototype.trim` removes: white space and line terminators. */
  predicate IsSpace(c: char) {
    c == '\t' || c == '\n' || c == 11 as char || c == 12 as char || c == '\r' || c == ' '
    || c == 0xA0 as char || c == 0x1680 as char || (0x2000 as char <= c <= 0x200A as char)
    || c == 0x2028 as char || c == 0x2029 as char || c == 0x202F as char || c == 0x205F as char
    || c == 0x3000 as char || c == 0xFEFF as char
  }

  /** A selection with nothing but white space in it. */
  predicate Blank(s: string) {
    forall i :: 0 <= i < |s| ==> IsSpace(s[i])
  }

  function TrimStart(s: string): (r: string)
    ensures |r| <= |s| && r == s[|s| - |r|..]
    ensures forall i :: 0 <= i < |s| - |r| ==> IsSpace(s[i])
    ensures r == [] || !IsSpace(r[0])
    decreases |s|
  {
    if s != [] && IsSpace(s[0]) then TrimStart(s[1..]) else s
  }

  function TrimEnd(s: string): (r: string)
    ensures |r| <= |s| && r == s[..|r|]
    ensures forall i :: |r| <= i < |s| ==> IsSpace(s[i])
    ensures r == [] || !IsSpace(r[|r| - 1])
    decreases |s|
  {
    if s != [] && IsSpace(s[|s| - 1]) then TrimEnd(s[..|s| - 1]) else s
  }

  /** White space removed from both ends; empty exactly for a blank selection. */
  function Trim(s: string): (r: string)
    ensures r == [] <==> Blank(s)
  {
    var t := TrimStart(s);
    var r := TrimEnd(t);
    r
  }

  /** The inline style put on the new span; `None` is an `undefined` colour, which the browser ignores. */
  datatype InlineStyle =
    | Foreground(color: Option<string>)
    | Background(color: Option<string>)
    | Bold
    | Underline
    | Unstyled

  /** Reading `.color` of a missing table entry throws. */
  datatype Error = UnknownCode(code: string)

  predicate StartsWith(s: string, c: char) {
    |s| > 0 && s[0] == c
  }

  /** Style lookup by colour: a missing entry throws. */
  function ColorOf(code: string): (r: Result<Option<string>, Error>)
    ensures r.Failure? <==> Lookup(code).None?
    ensures r.Success? ==> r.value == Lookup(code).value.Color()
  {
    match Lookup(code)
    case None => Failure(UnknownCode(code))
    case Some(e) => Success(e.Color())
  }

  /** The handler's classification as written: leading `3`, then leading `4`, then `1`, then `4`. */
  function Classify(code: string): Result<InlineStyle, Error> {
    if StartsWith(code, '3') then
      match ColorOf(code)
      case Failure(e) => Failure(e)
      case Success(c) => Success(Foreground(c))
    else if StartsWith(code, '4') then
      match ColorOf(code)
      case Failure(e) => Failure(e)
      case Success(c) => Success(Background(c))
    else if code == "1" then Success(Bold)
    else if code == "4" then Success(Underline)
    else Success(Unstyled)
  }

  /** Reading `.color` throws exactly for numerals outside the table's codes. */
  lemma ColorOfDomain(c: nat)
    ensures ColorOf(Dec(c)).Failure? <==> !(IsPaletteCode(c) || c == 1 || c == 4)
  {
    LookupDomain(c);
  }

  /** Only the two bare-name entries have an undefined colour. */
  lemma ColorOfBareNames(code: string)
    ensures ColorOf(code) == Success(None) <==> code == "1" || code == "4"
  {
  }

  /**
    The classification as written: the Bold button gets bold, and it
    throws exactly for a code starting with `3` or `4` that is not in the
    table.
  */
  lemma ClassifyOutcomes(code: string)
    ensures Classify("1") == Success(Bold)
    ensures Classify(code).Failure? <==>
      (StartsWith(code, '3') || StartsWith(code, '4')) && Lookup(code).None?
  {
  }

  /** The classification with the attribute codes tested before the colour prefixes. */
  function ClassifyIntended(code: string): (r: Result<InlineStyle, Error>)
    ensures r.Failure? ==> Lookup(code).None?
  {
    if code == "1" then Success(Bold)
    else if code == "4" then Success(Underline)
    else if StartsWith(code, '3') then
      match ColorOf(code)
      case Failure(e) => Failure(e)
      case Success(c) => Success(Foreground(c))
    else if StartsWith(code, '4') then
      match ColorOf(code)
      case Failure(e) => Failure(e)
      case Success(c) => Success(Background(c))
    else Success(Unstyled)
  }

  /** What the handler does to the editor: nothing, or replace the selection by a span. */
  datatype Edit = NoOp | Insert(style: InlineStyle, span: Node)

  /**
    The handler as written. The span gets an inline style and the selected
    text, but no class name, so the encoder reads no code from it.
  */
  function ApplyStyle(selection: string, code: string): (r: Result<Edit, Error>)
    ensures r == Success(NoOp) <==> Blank(selection)
    ensures r.Failure? <==> !Blank(selection) && Classify(code).Failure?
    ensures r.Success? && r.value.Insert? ==>
      r.value.style == Classify(code).value && r.value.span == Styled(None, [Text(selection)])
  {
    if Trim(selection) == [] then Success(NoOp)
    else
      match Classify(code)
      case Failure(e) => Failure(e)
      case Success(style) => Success(Insert(style, Styled(None, [Text(selection)])))
  }

  /**
    The handler as evidently intended: the span is tagged with its code,
    which the encoder reads back, and its style comes from the corrected
    classification.
  */
  function ApplyStyleTagged(selection: string, code: string): (r: Result<Edit, Error>)
    ensures r == Success(NoOp) <==> Blank(selection)
    ensures r.Failure? <==> !Blank(selection) && Lookup(code).None?
    ensures r.Success? && r.value.Insert? ==>
      && r.value.style == ClassifyIntended(code).value
      && r.value.span.Styled? && r.value.span.children == [Text(selection)]
      && r.value.span.code.Some? && Dec(r.value.span.code.value) == code
  {
    if Trim(selection) == [] then Success(NoOp)
    else if Lookup(code).None? then Failure(UnknownCode(code))
    else
      KeysAreNumerals(code);
      Success(Insert(ClassifyIntended(code).value, Styled(ParseDigits(code), [Text(selection)])))
  }

  /**
    As written, the underline branch is dead: "4" already starts with '4',
    so the Line button sets an undefined background colour instead.
  */
  lemma UnderlineUnreachable(code: string)
    ensures Classify(code) != Success(Underline)
    ensures Classify("4") == Success(Background(None))
    ensures ClassifyIntended("4") == Success(Underline)
  {
  }

  /** On the sixteen colour codes the two classifications agree and give the table's colour. */
  lemma {:induction false} ClassifyPalette(c: nat)
    requires IsPaletteCode(c)
    ensures Lookup(Dec(c)).Some? && Lookup(Dec(c)).value.Swatch?
    ensures Classify(Dec(c)) == ClassifyIntended(Dec(c))
    ensures 30 <= c < 40 ==> Classify(Dec(c)) == Success(Foreground(Some(Lookup(Dec(c)).value.color)))
    ensures 40 <= c ==> Classify(Dec(c)) == Success(Background(Some(Lookup(Dec(c)).value.color)))
  {
    LookupDomain(c);
    assert Dec(c) == [DigitChar(c / 10), DigitChar(c % 10)];
  }

  /**
    For every code in the table the corrected classification succeeds, gives
    colour codes their table colour, and picks the same category as the
    encoder's numeric ranges (below 30 an attribute, 30 to 39 the
    foreground, from 40 the background).
  */
  lemma ClassifyIntendedMatchesEncoder(code: string)
    requires Lookup(code).Some?
    ensures ParseDigits(code).Some?
    ensures ClassifyIntended(code).Success?
    ensures var c := ParseDigits(code).value;
      var style := ClassifyIntended(code).value;
      && (style.Foreground? <==> 30 <= c < 40)
      && (style.Background? <==> c >= 40)
      && (style.Bold? <==> c == 1)
      && (style.Underline? <==> c == 4)
      && ((style.Foreground? || style.Background?) ==> style.color == Some(Lookup(code).value.color))
  {
  }
}
