/**
  SELECT GRAPHIC RENDITION control sequences (section 8.3.117 of
  ECMA-48): `ESC [ p1 ; p2 m` and the reset `ESC [ 0 m`, together with the
  reader-side view of a string that carries them: the text that remains
  once every control sequence is removed.
*/
module Sgr {
  import opened Decimal

  const Esc: char := 27 as char

  /** The two-parameter sequence `ESC [ a ; b m`. */
  function Sequence(a: nat, b: nat): (s: string)
    ensures |s| >= 6 && s[0] == Esc && s[1] == '[' && s[|s| - 1] == 'm'
    ensures forall i :: 1 <= i < |s| - 1 ==> s[i] != 'm' && s[i] != Esc
  {
    [Esc, '['] + Dec(a) + [';'] + Dec(b) + ['m']
  }

  /** `ESC [ 0 m`: every attribute back to its default. */
  const Reset: string := [Esc, '[', '0', 'm']

  /** A string with no escape character: it renders exactly as written. */
  predicate Plain(s: string) {
    forall i :: 0 <= i < |s| ==> s[i] != Esc
  }

  /** What follows the final byte `m` of a control sequence whose parameters start `s`. */
  function SkipParams(s: string): (r: string)
    ensures |r| <= |s| && r == s[|s| - |r|..]
    ensures 'm' in s ==> |r| < |s| && s[|s| - |r| - 1] == 'm' && 'm' !in s[..|s| - |r| - 1]
    decreases |s|
  {
    if s == [] then []
    else if s[0] == 'm' then s[1..]
    else SkipParams(s[1..])
  }

  /** The visible text of `s`: every control sequence removed. */
  function Strip(s: string): string
    decreases |s|
  {
    if s == [] then []
    else if s[0] == Esc then Strip(SkipParams(s[1..]))
    else [s[0]] + Strip(s[1..])
  }

  /** The visible text has no escape character, and stripping changes exactly the strings that have one. */
  lemma {:induction false} StripRemovesEscapes(s: string)
    ensures Plain(Strip(s))
    ensures |Strip(s)| <= |s|
    ensures Strip(s) == s <==> Plain(s)
    decreases |s|
  {
    if s != [] {
      if s[0] == Esc {
        StripRemovesEscapes(SkipParams(s[1..]));
      } else {
        StripRemovesEscapes(s[1..]);
        PlainAppend([s[0]], Strip(s[1..]));
        if Plain(s) {
          PlainAppend([s[0]], s[1..]);
          assert s == [s[0]] + s[1..];
        }
        if Strip(s) == s {
          assert Strip(s[1..]) == s[1..];
          PlainAppend([s[0]], s[1..]);
          assert s == [s[0]] + s[1..];
        }
      }
    }
  }

  /** Every control sequence in `s` is complete: each escape has its final byte. */
  predicate Closed(s: string)
    decreases |s|
  {
    if s == [] then true
    else if s[0] == Esc then 'm' in s[1..] && Closed(SkipParams(s[1..]))
    else Closed(s[1..])
  }

  lemma {:induction false} SkipParamsAppend(x: string, y: string)
    requires 'm' in x
    ensures SkipParams(x + y) == SkipParams(x) + y
    decreases |x|
  {
    assert (x + y)[0] == x[0];
    if x[0] != 'm' {
      assert (x + y)[1..] == x[1..] + y;
      SkipParamsAppend(x[1..], y);
    }
  }

  lemma PlainAppend(a: string, b: string)
    ensures Plain(a + b) <==> Plain(a) && Plain(b)
  {
    if Plain(a) && Plain(b) {
      forall i | 0 <= i < |a + b|
        ensures (a + b)[i] != Esc
      {
        if i >= |a| {
          assert (a + b)[i] == b[i - |a|];
        }
      }
    }
    if Plain(a + b) {
      forall i | 0 <= i < |a|
        ensures a[i] != Esc
      {
        assert (a + b)[i] == a[i];
      }
      forall i | 0 <= i < |b|
        ensures b[i] != Esc
      {
        assert (a + b)[|a| + i] == b[i];
      }
    }
  }

  /** Text with invisible, closed pieces around it shows only what it shows itself. */
  lemma {:induction false} InvisibleAround(open: string, inner: string, close: string)
    requires Closed(open) && Strip(open) == []
    requires Closed(inner)
    requires Closed(close) && Strip(close) == []
    ensures Closed(open + inner + close)
    ensures Strip(open + inner + close) == Strip(inner)
  {
    var middle := inner + close;
    assert open + inner + close == open + middle;
    assert Closed(middle) && Strip(middle) == Strip(inner) + Strip(close) by {
      StripAppend(inner, close);
    }
    assert Closed(open + middle) && Strip(open + middle) == Strip(open) + Strip(middle) by {
      StripAppend(open, middle);
    }
  }

  /** A scope's output, `open inner reset reopen`, shows only what `inner` shows. */
  lemma ScopeInvisibleFrame(open: string, inner: string, reopen: string)
    requires Closed(open) && Strip(open) == []
    requires Closed(inner)
    requires Closed(reopen) && Strip(reopen) == []
    ensures Closed(open + inner + Reset + reopen)
    ensures Strip(open + inner + Reset + reopen) == Strip(inner)
  {
    assert Closed(Reset + reopen) && Strip(Reset + reopen) == [] by {
      ResetInvisible();
      StripAppend(Reset, reopen);
    }
    InvisibleAround(open, inner, Reset + reopen);
    assert open + inner + Reset + reopen == open + inner + (Reset + reopen);
  }

  lemma PlainIsClosed(s: string)
    requires Plain(s)
    ensures Closed(s)
    decreases |s|
  {
  }

  /** Removing control sequences distributes over a concatenation whose left part is closed. */
  lemma {:induction false} StripAppend(x: string, y: string)
    requires Closed(x)
    ensures Strip(x + y) == Strip(x) + Strip(y)
    ensures Closed(y) ==> Closed(x + y)
    decreases |x|
  {
    if x == [] {
      assert x + y == y;
    } else {
      assert (x + y)[0] == x[0];
      assert (x + y)[1..] == x[1..] + y;
      if x[0] == Esc {
        SkipParamsAppend(x[1..], y);
        StripAppend(SkipParams(x[1..]), y);
        assert 'm' in (x + y)[1..];
      } else {
        StripAppend(x[1..], y);
      }
    }
  }

  /** A control sequence is closed and leaves nothing visible. */
  lemma SequenceInvisible(a: nat, b: nat)
    ensures Closed(Sequence(a, b)) && Strip(Sequence(a, b)) == []
  {
  }

  lemma ResetInvisible()
    ensures Closed(Reset) && Strip(Reset) == []
  {
  }
}
