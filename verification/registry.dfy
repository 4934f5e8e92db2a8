/**
  The fixed palette of the colored-text generator: the sixteen colour
  codes (30-37 foreground, 40-47 background), each with a hex colour and a
  display name, and the two attribute codes whose entry is a bare name.
*/
module Registry {
  import opened Wrappers
  import opened Decimal

  /** A table entry: a colour swatch, or a bare name string for an attribute code. */
  datatype Entry = Swatch(color: string, name: string) | Label(text: string)
  {
    /** Reading `.color` from the entry: a bare string has no such property. */
    function Color(): (c: Option<string>)
      ensures c.Some? <==> Swatch?
    {
      if Swatch? then Some(color) else None
    }
  }

  const AnsiCodes: map<string, Entry> := map[
    "30" := Swatch("#4f545c", "Dark Gray (33%)"),
    "31" := Swatch("#dc322f", "Red"),
    "32" := Swatch("#859900", "Yellowish Green"),
    "33" := Swatch("#b58900", "Gold"),
    "34" := Swatch("#268bd2", "Light Blue"),
    "35" := Swatch("#d33682", "Pink"),
    "36" := Swatch("#2aa198", "Teal"),
    "37" := Swatch("#ffffff", "White"),
    "40" := Swatch("#002b36", "Blueish Black"),
    "41" := Swatch("#cb4b16", "Rust Brown"),
    "42" := Swatch("#586e75", "Gray (40%)"),
    "43" := Swatch("#657b83", "Gray (45%)"),
    "44" := Swatch("#839496", "Light Gray (55%)"),
    "45" := Swatch("#6c71c4", "Blurple"),
    "46" := Swatch("#93a1a1", "Light Gray (60%)"),
    "47" := Swatch("#fdf6e3", "Cream White"),
    "1" := Label("Bold"),
    "4" := Label("Underline")
  ]

  /** The numeric codes that carry a colour. */
  predicate IsPaletteCode(c: nat) {
    30 <= c <= 37 || 40 <= c <= 47
  }

  /** Indexing the table; a string that is not one of its own keys reads as `undefined`. */
  function Lookup(key: string): Option<Entry> {
    if key in AnsiCodes then Some(AnsiCodes[key]) else None
  }

  /** A one- or two-digit numeral without a leading zero. */
  predicate ShortNumeral(s: string) {
    && (|s| == 1 || |s| == 2)
    && (forall i :: 0 <= i < |s| ==> IsDigit(s[i]))
    && (|s| == 2 ==> s[0] != '0')
  }

  lemma ShortNumeralRoundTrip(s: string)
    requires ShortNumeral(s)
    ensures ParseDigits(s).Some?
    ensures Dec(ParseDigits(s).value) == s
  {
  }

  /** Every key of the table is the decimal numeral of its code. */
  lemma KeysAreNumerals(key: string)
    requires Lookup(key).Some?
    ensures ParseDigits(key).Some?
    ensures Dec(ParseDigits(key).value) == key
  {
    assert ShortNumeral(key);
    ShortNumeralRoundTrip(key);
  }

  /** The keys are exactly "1", "4" and the two-digit numerals 30-37 and 40-47. */
  lemma KeyShapes(key: string)
    ensures Lookup(key).Some? <==>
      (key == "1" || key == "4" || (|key| == 2 && (key[0] == '3' || key[0] == '4') && '0' <= key[1] <= '7'))
  {
    if |key| == 2 {
      assert key == [key[0], key[1]];
    }
  }

  /** Every colour code has an entry with a colour; no other numeral but 1 and 4 has an entry. */
  lemma {:induction false} LookupDomain(c: nat)
    ensures IsPaletteCode(c) ==> Lookup(Dec(c)).Some? && Lookup(Dec(c)).value.Swatch?
    ensures Lookup(Dec(c)).Some? <==> IsPaletteCode(c) || c == 1 || c == 4
  {
    var k := Dec(c);
    if c < 10 {
      assert k == [DigitChar(c)];
    } else if c < 100 {
      assert Dec(c / 10) == [DigitChar(c / 10)];
      assert k == [DigitChar(c / 10), DigitChar(c % 10)];
    } else {
      assert |Dec(c / 10)| >= 2;
      assert |k| >= 3;
    }
    if Lookup(k).Some? {
      KeyShapes(k);
    }
  }

  /** The two attribute codes map to their names only. */
  lemma AttributeEntries()
    ensures Lookup("1") == Some(Label("Bold"))
    ensures Lookup("4") == Some(Label("Underline"))
    ensures Lookup("1").value.Color().None? && Lookup("4").value.Color().None?
  {
  }
}
