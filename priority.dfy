/** `formatPriority` in js/main.js: the 32-bit ICE candidate priority split
    into the fields of section 4.1.2.1 of RFC 5245 (section 5.1.2.1 of
    RFC 8445), rendered as "type | local | component". */
module Priority {
  import opened JsNumbers
  import opened Wrappers

  /** The three numbers `formatPriority` shows: type preference (bits
      24..31), local preference (bits 8..23) and 256 minus the component ID
      (bits 0..7). */
  datatype PriorityParts = PriorityParts(typePreference: int, localPreference: int, componentField: int)

  lemma Pow2Values()
    ensures Pow2(8) == 0x100 && Pow2(16) == 0x1_0000 && Pow2(24) == 0x100_0000
  {
    assert Pow2(8) == 0x100;
    assert Pow2(16) == 0x100 * Pow2(8) by { Pow2Add(8, 8); }
    assert Pow2(24) == 0x100 * Pow2(16) by { Pow2Add(8, 16); }
  }

  lemma {:induction false} Pow2Add(m: nat, n: nat)
    ensures Pow2(m + n) == Pow2(m) * Pow2(n)
    decreases m
  {
    if m > 0 {
      Pow2Add(m - 1, n);
    }
  }

  /** The fields as the source computes them: `priority >> 24`,
      `(priority >> 8) & 0xFFFF` and `priority & 0xFF`. Recombined they
      give back the 32-bit value of the priority, so for any priority below
      2^31 they give back the priority itself; a priority at or above 2^31
      shows a negative type preference, because `>>` propagates the sign. */
  function PriorityFields(priority: int): (f: PriorityParts)
    ensures -128 <= f.typePreference < 128
    ensures 0 <= f.localPreference < 0x1_0000
    ensures 0 <= f.componentField < 0x100
    ensures f.typePreference * 0x100_0000 + f.localPreference * 0x100 + f.componentField
            == ToInt32(priority)
    ensures 0 <= priority < TwoTo31 ==>
              0 <= f.typePreference &&
              f.typePreference * 0x100_0000 + f.localPreference * 0x100 + f.componentField == priority
    ensures TwoTo31 <= priority < TwoTo32 ==>
              f.typePreference < 0 &&
              f.typePreference * 0x100_0000 + f.localPreference * 0x100 + f.componentField
              == priority - TwoTo32
  {
    Pow2Values();
    var q := ToInt32(priority);
    var mid := ShiftRight(priority, 8);
    assert mid == q / 0x100;
    assert ToInt32(mid) == mid;
    assert q / 0x100_0000 == mid / 0x1_0000;
    PriorityParts(ShiftRight(priority, 24), AndLowMask(mid, 16), AndLowMask(priority, 8))
  }

  /** The priority formula of section 4.1.2.1 of RFC 5245. */
  function RfcPriority(typePreference: nat, localPreference: nat, componentId: nat): (p: int)
    requires typePreference <= 126 && localPreference < 0x1_0000 && 1 <= componentId <= 256
    ensures 0 <= p < TwoTo31
  {
    0x100_0000 * typePreference + 0x100 * localPreference + (256 - componentId)
  }

  /** Decoding a priority built by the RFC formula returns its parts. */
  lemma PriorityFieldsOfRfcPriority(typePreference: nat, localPreference: nat, componentId: nat)
    requires typePreference <= 126 && localPreference < 0x1_0000 && 1 <= componentId <= 256
    ensures PriorityFields(RfcPriority(typePreference, localPreference, componentId))
            == PriorityParts(typePreference, localPreference, 256 - componentId)
  {
    var f := PriorityFields(RfcPriority(typePreference, localPreference, componentId));
    FieldsUnique(f.typePreference, f.localPreference, f.componentField,
                 typePreference, localPreference, 256 - componentId);
  }

  lemma FieldsUnique(a1: int, b1: int, c1: int, a2: int, b2: int, c2: int)
    requires 0 <= b1 < 0x1_0000 && 0 <= c1 < 0x100
    requires 0 <= b2 < 0x1_0000 && 0 <= c2 < 0x100
    requires a1 * 0x100_0000 + b1 * 0x100 + c1 == a2 * 0x100_0000 + b2 * 0x100 + c2
    ensures a1 == a2 && b1 == b2 && c1 == c2
  {
    assert (c1 - c2) % 0x100 == 0;
    assert c1 == c2;
    assert (b1 - b2) % 0x1_0000 == 0;
  }

  /** `formatPriority`: the three fields joined by " | ". The line has
      exactly three '|'-separated pieces, each the rendering of one field
      with the spaces `join` put around it. */
  function FormatPriority(priority: int): (line: string)
    ensures var f := PriorityFields(priority);
            Split(line, '|') == [Show(f.typePreference) + " ", " " + Show(f.localPreference) + " ",
                                 " " + Show(f.componentField)]
  {
    var f := PriorityFields(priority);
    var a, b, c := Show(f.typePreference), Show(f.localPreference), Show(f.componentField);
    ShowClean(f.typePreference);
    ShowClean(f.localPreference);
    ShowClean(f.componentField);
    SplitThree(a, b, c);
    a + " | " + b + " | " + c
  }

  /** The pieces of `s` between occurrences of `sep`. */
  function Split(s: string, sep: char): (parts: seq<string>)
    ensures |parts| > 0
  {
    if s == [] then [""]
    else
      var rest := Split(s[1..], sep);
      if s[0] == sep then [""] + rest else [[s[0]] + rest[0]] + rest[1..]
  }

  lemma {:induction false} SplitNoSeparator(a: string, sep: char)
    requires sep !in a
    ensures Split(a, sep) == [a]
  {
    if a != [] {
      SplitNoSeparator(a[1..], sep);
      assert [a[0]] + a[1..] == a;
    }
  }

  lemma {:induction false} SplitAtSeparator(a: string, sep: char, b: string)
    requires sep !in a
    ensures Split(a + [sep] + b, sep) == [a] + Split(b, sep)
  {
    if a == [] {
      assert a + [sep] + b == [sep] + b;
      assert ([sep] + b)[1..] == b;
    } else {
      SplitAtSeparator(a[1..], sep, b);
      assert (a + [sep] + b)[1..] == a[1..] + [sep] + b;
      assert [a[0]] + a[1..] == a;
    }
  }

  /** `s` with every space removed. */
  function RemoveSpaces(s: string): (r: string)
    ensures ' ' !in r
  {
    if s == [] then []
    else if s[0] == ' ' then RemoveSpaces(s[1..])
    else [s[0]] + RemoveSpaces(s[1..])
  }

  lemma {:induction false} RemoveSpacesAppend(a: string, b: string)
    ensures RemoveSpaces(a + b) == RemoveSpaces(a) + RemoveSpaces(b)
  {
    if a == [] {
      assert a + b == b;
    } else {
      var ra, rb := RemoveSpaces(a[1..]), RemoveSpaces(b);
      RemoveSpacesAppend(a[1..], b);
      assert (a + b)[1..] == a[1..] + b;
      if a[0] != ' ' {
        assert [a[0]] + (ra + rb) == ([a[0]] + ra) + rb;
      }
    }
  }

  lemma {:induction false} RemoveSpacesNone(a: string)
    requires ' ' !in a
    ensures RemoveSpaces(a) == a
  {
    if a != [] {
      RemoveSpacesNone(a[1..]);
      assert [a[0]] + a[1..] == a;
    }
  }

  predicate IsNumeral(s: string)
  {
    forall i :: 0 <= i < |s| ==> IsDigit(s[i]) || (i == 0 && s[i] == '-')
  }

  /** Reads a "type | local | component" line back into its fields. */
  function ParsePriority(s: string): Option<PriorityParts>
  {
    var parts := Split(s, '|');
    if |parts| != 3 then None
    else
      var a, b, c := RemoveSpaces(parts[0]), RemoveSpaces(parts[1]), RemoveSpaces(parts[2]);
      if IsNumeral(a) && IsNumeral(b) && IsNumeral(c)
      then Some(PriorityParts(ParseInt(a), ParseInt(b), ParseInt(c)))
      else None
  }

  lemma ShowClean(n: int)
    ensures '|' !in Show(n) && ' ' !in Show(n)
    ensures IsNumeral(Show(n))
  {
  }

  lemma NoSeparatorAppend(a: string, b: string, sep: char)
    requires sep !in a && sep !in b
    ensures sep !in a + b
  {
  }

  /** "a | b | c" cut at its two '|' characters. */
  lemma JoinAtBars(a: string, b: string, c: string)
    ensures a + " | " + b + " | " + c == (a + " ") + ['|'] + ((" " + b + " ") + ['|'] + (" " + c))
  {
  }

  /** Splitting "a | b | c" on '|' when none of the three holds a '|'. */
  lemma SplitThree(a: string, b: string, c: string)
    requires '|' !in a && '|' !in b && '|' !in c
    ensures Split(a + " | " + b + " | " + c, '|') == [a + " ", " " + b + " ", " " + c]
  {
    var left, mid, tail := a + " ", " " + b + " ", " " + c;
    NoSeparatorAppend(a, " ", '|');
    NoSeparatorAppend(" ", b, '|');
    NoSeparatorAppend(" " + b, " ", '|');
    NoSeparatorAppend(" ", c, '|');
    SplitNoSeparator(tail, '|');
    SplitAtSeparator(mid, '|', tail);
    SplitAtSeparator(left, '|', mid + ['|'] + tail);
    JoinAtBars(a, b, c);
  }

  /** Removing the spaces around a numeral restores it. */
  lemma StripNumeral(a: string)
    requires ' ' !in a
    ensures RemoveSpaces(a + " ") == a
    ensures RemoveSpaces(" " + a) == a
    ensures RemoveSpaces(" " + a + " ") == a
  {
    RemoveSpacesNone(a);
    assert RemoveSpaces(" ") == [];
    RemoveSpacesAppend(a, " ");
    RemoveSpacesAppend(" ", a);
    RemoveSpacesAppend(" " + a, " ");
  }

  /** The rendered line determines the fields: parsing it back returns
      exactly what `formatPriority` decoded. */
  lemma ParseFormatPriority(priority: int)
    ensures ParsePriority(FormatPriority(priority)) == Some(PriorityFields(priority))
  {
    var f := PriorityFields(priority);
    var a, b, c := Show(f.typePreference), Show(f.localPreference), Show(f.componentField);
    ShowClean(f.typePreference);
    ShowClean(f.localPreference);
    ShowClean(f.componentField);
    StripNumeral(a);
    StripNumeral(b);
    StripNumeral(c);
    ParseIntOfShow(f.typePreference);
    ParseIntOfShow(f.localPreference);
    ParseIntOfShow(f.componentField);
  }

  /** Two priorities render the same line exactly when they agree as 32-bit
      values; in particular distinct priorities below 2^31 never share a
      line. */
  lemma FormatPriorityInjective(p1: int, p2: int)
    ensures FormatPriority(p1) == FormatPriority(p2) <==> ToInt32(p1) == ToInt32(p2)
  {
    if FormatPriority(p1) == FormatPriority(p2) {
      ParseFormatPriority(p1);
      ParseFormatPriority(p2);
    }
    if ToInt32(p1) == ToInt32(p2) {
      var f1, f2 := PriorityFields(p1), PriorityFields(p2);
      FieldsUnique(f1.typePreference, f1.localPreference, f1.componentField,
                   f2.typePreference, f2.localPreference, f2.componentField);
    }
  }

  /** The example of the source's comment: a host candidate (type
      preference 126) for component 1 with local preference 32252 decodes to
      126, 32252 and 255. */
  lemma HostPriorityExample()
    ensures RfcPriority(126, 32252, 1) == 2122185983
    ensures PriorityFields(2122185983) == PriorityParts(126, 32252, 255)
  {
    PriorityFieldsOfRfcPriority(126, 32252, 1);
  }
}
