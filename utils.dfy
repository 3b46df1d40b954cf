/** The field normalisers of src/utils.rs: focal length to "<n> mm",
    "<n.d> mm" or "N/A", and white balance onto a closed vocabulary. */
module Utils {
  import opened Wrappers
  import opened Text

  /** The sentinel stored for an absent or unparseable field. */
  const NotAvailable: string := "N/A"

  // ------------------------------------------------------------ focal length

  /** A decimal literal: digits, then optionally a point and more digits. This
      is the part of Rust's `f64` grammar the model accepts. */
  datatype Decimal = Decimal(whole: string, point: bool, fraction: string)

  predicate WellFormed(d: Decimal) {
    && AllDigits(d.whole) && AllDigits(d.fraction)
    && |d.whole| + |d.fraction| > 0
    && (!d.point ==> d.fraction == [])
  }

  function Spelling(d: Decimal): string {
    if d.point then d.whole + "." + d.fraction else d.whole
  }

  /** The position of the first `c` in `s`, if any. */
  function IndexOf(s: string, c: char): (r: Option<nat>)
    ensures r.None? <==> c !in s
    ensures r.Some? ==> r.value < |s| && s[r.value] == c && c !in s[..r.value]
  {
    if s == [] then None
    else if s[0] == c then Some(0)
    else match IndexOf(s[1..], c)
      case None => None
      case Some(i) => assert s[..i + 1] == [s[0]] + s[1..][..i]; Some(i + 1)
  }

  /** `str::parse::<f64>` restricted to decimal literals: "5", "5.", ".5", "5.25". */
  function ParseDecimal(s: string): (r: Option<Decimal>)
    ensures r.Some? ==> WellFormed(r.value) && Spelling(r.value) == s
  {
    match IndexOf(s, '.')
    case None => if s != [] && AllDigits(s) then Some(Decimal(s, false, [])) else None
    case Some(i) =>
      var d := Decimal(s[..i], true, s[i + 1..]);
      assert s == s[..i] + "." + s[i + 1..];
      if WellFormed(d) then Some(d) else None
  }

  /** Parsing is the inverse of spelling: every well-formed literal, and only
      such literals, parse. */
  lemma ParseSpelling(d: Decimal)
    requires WellFormed(d)
    ensures ParseDecimal(Spelling(d)) == Some(d)
  {
    var s := Spelling(d);
    assert '.' !in d.whole by {
      assert forall i :: 0 <= i < |d.whole| ==> IsDigit(d.whole[i]);
    }
    if d.point {
      assert s[..|d.whole|] == d.whole && s[|d.whole|] == '.';
      assert s[|d.whole| + 1..] == d.fraction;
    } else {
      assert '.' !in s;
    }
  }

  /** The value of `d` in tenths as `{:.1}` prints it: the first fractional
      digit, rounded up when the second is 5 or more. */
  function Tenths(d: Decimal): nat
    requires WellFormed(d)
  {
    var first := if |d.fraction| > 0 then DigitValue(d.fraction[0]) else 0;
    var up := if |d.fraction| > 1 && d.fraction[1] >= '5' then 1 else 0;
    DigitsValue(d.whole) * 10 + first + up
  }

  /** `value.fract() == 0.0`: every fractional digit is zero. */
  predicate IsIntegral(d: Decimal) {
    forall i :: 0 <= i < |d.fraction| ==> d.fraction[i] == '0'
  }

  /** A whole number of tenths rendered as "<n> mm" when it is a whole number
      of millimetres and as "<n>.<d> mm" otherwise. */
  function RenderMm(tenths: nat): (r: string)
    ensures |r| > 3 && r[|r| - 3..] == " mm" && IsDigit(r[0])
  {
    var whole := NatToString(tenths / 10);
    if tenths % 10 == 0 then whole + " mm" else whole + "." + [DigitChar(tenths % 10)] + " mm"
  }

  /** "<digits> mm" or "<digits>.<digit> mm": the shape of both `format!`
      branches of the source. */
  predicate IsMillimetres(s: string) {
    && |s| > 3 && s[|s| - 3..] == " mm"
    && var n := s[..|s| - 3];
       || (|n| > 0 && AllDigits(n))
       || (|n| > 2 && AllDigits(n[..|n| - 2]) && n[|n| - 2] == '.' && IsDigit(n[|n| - 1]))
  }

  /** What the store may hold in the FocalLength column. */
  ghost predicate IsCanonicalFocalLength(s: string) {
    s == NotAvailable || exists t: nat :: s == RenderMm(t)
  }

  /** trim, lower-case, drop "mm", comma to point, trim. */
  function CleanFocal(s: string): string {
    Trim(ReplaceAll(ReplaceAll(Lower(Trim(s)), "mm", ""), ",", "."))
  }

  /** `normalize_focal_length`, with the rounding case corrected: the value is
      rounded to one decimal first, and a rounded value that is whole is printed
      without a fraction. */
  function NormalizeFocalLength(focal: Option<string>): (r: string)
    ensures IsCanonicalFocalLength(r)
    ensures r == NotAvailable <==> focal.None? || ParseDecimal(CleanFocal(focal.value)).None?
  {
    match focal
    case None => NotAvailable
    case Some(s) =>
      match ParseDecimal(CleanFocal(s))
      case None => NotAvailable
      case Some(d) => RenderMm(Tenths(d))
  }

  /** `normalize_focal_length` as written: wholeness is tested on the parsed
      value, before `{:.1}` rounds it. */
  function NormalizeFocalLengthAsWritten(focal: Option<string>): (r: string)
    ensures r == NotAvailable <==> focal.None? || ParseDecimal(CleanFocal(focal.value)).None?
    ensures r != NotAvailable ==> IsMillimetres(r)
    ensures focal.Some? && ParseDecimal(CleanFocal(focal.value)).Some? ==>
              ('.' in r <==> !IsIntegral(ParseDecimal(CleanFocal(focal.value)).value))
  {
    match focal
    case None => NotAvailable
    case Some(s) =>
      match ParseDecimal(CleanFocal(s))
      case None => NotAvailable
      case Some(d) => RenderAsWritten(d)
  }

  /** The two `format!` branches of the source: the integer part when the
      value has no fraction, else the value printed with one decimal. */
  function RenderAsWritten(d: Decimal): (r: string)
    requires WellFormed(d)
    ensures |r| > 3 && IsDigit(r[0])
    ensures IsMillimetres(r)
    ensures '.' in r <==> !IsIntegral(d)
  {
    if IsIntegral(d) then
      var w := NatToString(DigitsValue(d.whole));
      assert (w + " mm")[..|w|] == w;
      assert forall i :: 0 <= i < |w| + 3 ==> (w + " mm")[i] != '.';
      w + " mm"
    else
      var t := Tenths(d);
      var w := NatToString(t / 10);
      var n := w + "." + [DigitChar(t % 10)];
      assert (n + " mm")[..|n|] == n && n[..|n| - 2] == w;
      assert (n + " mm")[|w|] == '.';
      n + " mm"
  }

  // ----------------------------------------------- focal length: properties

  lemma TrimLowerPlain(lit: string)
    requires NoSpaceAtEnds(lit) && IsLower(lit)
    ensures Lower(Trim(lit)) == lit
  {
    TrimIdentity(lit);
    LowerOfLower(lit);
  }

  lemma ReplaceNothing(lit: string)
    requires 'm' !in lit && ',' !in lit
    ensures ReplaceAll(ReplaceAll(lit, "mm", ""), ",", ".") == lit
  {
    ReplaceAllAbsent(lit, "mm", "");
    ReplaceAllAbsent(lit, ",", ".");
  }

  /** Text with nothing to trim, lower-case, replace or drop is kept by the
      cleaning steps. */
  lemma CleanPlain(lit: string)
    requires NoSpaceAtEnds(lit) && IsLower(lit) && 'm' !in lit && ',' !in lit
    ensures CleanFocal(lit) == lit
  {
    TrimLowerPlain(lit);
    ReplaceNothing(lit);
    TrimIdentity(lit);
  }

  lemma DropUnit(lit: string, gap: string)
    requires 'm' !in lit && ',' !in lit && AllSpace(gap)
    ensures ReplaceAll(ReplaceAll(lit + gap + "mm", "mm", ""), ",", ".") == lit + gap
  {
    var u := lit + gap;
    assert 'm' !in u && ',' !in u by {
      assert forall i :: 0 <= i < |gap| ==> IsSpace(gap[i]);
    }
    ReplaceAllPrefix(u, "mm", "mm", "");
    assert ReplaceAll("mm", "mm", "") == "";
    assert u + "" == u;
    ReplaceAllAbsent(u, ",", ".");
  }

  lemma TrimUnitGap(lit: string, gap: string)
    requires NoSpaceAtEnds(lit) && AllSpace(gap)
    ensures Trim(lit + gap) == lit
  {
    assert lit + gap == [] + lit + gap;
    TrimPadded([], lit, gap);
    TrimIdentity(lit);
  }

  /** The same text followed by "mm", after any run of whitespace, is cleaned
      to the text alone. */
  lemma CleanWithUnit(lit: string, gap: string)
    requires |lit| > 0 && NoSpaceAtEnds(lit) && IsLower(lit) && 'm' !in lit && ',' !in lit
    requires AllSpace(gap)
    ensures CleanFocal(lit + gap + "mm") == lit
  {
    var s := lit + gap + "mm";
    assert NoSpaceAtEnds(s);
    assert IsLower(s) by {
      assert forall i :: 0 <= i < |gap| ==> IsSpace(gap[i]);
    }
    TrimLowerPlain(s);
    DropUnit(lit, gap);
    TrimUnitGap(lit, gap);
  }

  /** Once trimmed and lower-cased, text with no unit and no comma is final. */
  lemma CleanSteps(s: string, lit: string)
    requires Lower(Trim(s)) == lit
    requires NoSpaceAtEnds(lit) && 'm' !in lit && ',' !in lit
    ensures CleanFocal(s) == lit
  {
    ReplaceNothing(lit);
    TrimIdentity(lit);
  }

  /** Nothing, or "mm" after the given whitespace. */
  function UnitSuffix(unit: Option<string>): string {
    match unit
    case None => ""
    case Some(gap) => gap + "mm"
  }

  /** A decimal literal, bare or with its unit, is cleaned back to the literal
      and parses to it. */
  lemma CleanSpelling(d: Decimal, unit: Option<string>)
    requires WellFormed(d) && (unit.Some? ==> AllSpace(unit.value))
    ensures ParseDecimal(CleanFocal(Spelling(d) + UnitSuffix(unit))) == Some(d)
  {
    var lit := Spelling(d);
    assert forall i :: 0 <= i < |lit| ==> IsDigit(lit[i]) || lit[i] == '.';
    assert NoSpaceAtEnds(lit) && IsLower(lit) && 'm' !in lit && ',' !in lit;
    ParseSpelling(d);
    match unit
    case None =>
      assert lit + UnitSuffix(unit) == lit;
      CleanPlain(lit);
    case Some(gap) =>
      assert lit + UnitSuffix(unit) == lit + gap + "mm";
      CleanWithUnit(lit, gap);
  }

  /** The normaliser's own outputs parse back to the value they render. */
  lemma CleanRenderMm(t: nat)
    ensures ParseDecimal(CleanFocal(RenderMm(t))) == Some(if t % 10 == 0 then Decimal(NatToString(t / 10), false, [])
                                                           else Decimal(NatToString(t / 10), true, [DigitChar(t % 10)]))
  {
    var w := NatToString(t / 10);
    var d := if t % 10 == 0 then Decimal(w, false, []) else Decimal(w, true, [DigitChar(t % 10)]);
    assert WellFormed(d);
    assert RenderMm(t) == Spelling(d) + UnitSuffix(Some(" "));
    CleanSpelling(d, Some(" "));
  }

  /** The rendered forms are fixed points of the normaliser. */
  lemma FocalLengthRenderFixpoint(t: nat)
    ensures NormalizeFocalLength(Some(RenderMm(t))) == RenderMm(t)
  {
    var w := NatToString(t / 10);
    var d := if t % 10 == 0 then Decimal(w, false, []) else Decimal(w, true, [DigitChar(t % 10)]);
    CleanRenderMm(t);
    assert ParseDecimal(CleanFocal(RenderMm(t))) == Some(d);
    NatToStringValue(t / 10);
    assert DigitsValue(w) == t / 10;
    assert Tenths(d) == t;
  }

  lemma LowerSentinel()
    ensures Lower(NotAvailable) == "n/a"
  {
    var l := Lower(NotAvailable);
    assert |l| == 3 && l[0] == 'n' && l[1] == '/' && l[2] == 'a';
  }

  lemma LowerTrimSentinel()
    ensures Lower(Trim(NotAvailable)) == "n/a"
  {
    TrimIdentity(NotAvailable);
    LowerSentinel();
  }

  lemma NotDecimal(s: string)
    requires |s| > 0 && !IsDigit(s[0]) && s[0] != '.'
    ensures ParseDecimal(s).None?
  {
  }

  lemma CleanSentinel()
    ensures ParseDecimal(CleanFocal(NotAvailable)).None?
  {
    LowerTrimSentinel();
    CleanSteps(NotAvailable, "n/a");
    NotDecimal("n/a");
  }

  /** Normalising an already normalised focal length changes nothing. */
  lemma FocalLengthIdempotent(focal: Option<string>)
    ensures NormalizeFocalLength(Some(NormalizeFocalLength(focal))) == NormalizeFocalLength(focal)
  {
    var r := NormalizeFocalLength(focal);
    if r == NotAvailable {
      CleanSentinel();
    } else {
      var t: nat :| r == RenderMm(t);
      FocalLengthRenderFixpoint(t);
    }
  }

  /** Upper-case letters are read as their lower-case forms, so " 85 MM " and
      " 85 mm " normalise alike. */
  lemma FocalLengthIgnoresCase(s: string)
    ensures NormalizeFocalLength(Some(Lower(s))) == NormalizeFocalLength(Some(s))
    ensures NormalizeFocalLengthAsWritten(Some(Lower(s))) == NormalizeFocalLengthAsWritten(Some(s))
  {
    TrimLower(s);
    LowerIdempotent(Trim(s));
  }

  /** Whitespace around the value is ignored. */
  lemma FocalLengthIgnoresPadding(a: string, s: string, b: string)
    requires AllSpace(a) && AllSpace(b)
    ensures NormalizeFocalLength(Some(a + s + b)) == NormalizeFocalLength(Some(s))
    ensures NormalizeFocalLengthAsWritten(Some(a + s + b)) == NormalizeFocalLengthAsWritten(Some(s))
  {
    TrimPadded(a, s, b);
  }

  lemma KeepsSpaceCommaToPoint()
    ensures KeepsSpace(Subst(',', '.'))
  {
  }

  lemma LowerCommaToPoint(y: string)
    ensures Lower(MapChars(y, Subst(',', '.'))) == MapChars(Lower(y), Subst(',', '.'))
  {
    var f := Subst(',', '.');
    assert forall i :: 0 <= i < |y| ==> LowerChar(f(y[i])) == f(LowerChar(y[i]));
  }

  lemma DropUnitCommaToPoint(z: string)
    ensures ReplaceAll(MapChars(z, Subst(',', '.')), "mm", "") == MapChars(ReplaceAll(z, "mm", ""), Subst(',', '.'))
  {
    ReplaceAllMap(z, Subst(',', '.'), "mm", "");
  }

  lemma CommaToPointTwice(w: string)
    ensures ReplaceAll(MapChars(w, Subst(',', '.')), ",", ".") == ReplaceAll(w, ",", ".")
  {
    var f := Subst(',', '.');
    ReplaceAllChar(MapChars(w, f), ',', '.');
    ReplaceAllChar(w, ',', '.');
    assert MapChars(MapChars(w, f), f) == MapChars(w, f);
  }

  lemma CleanCommaToPoint(s: string)
    ensures CleanFocal(ReplaceAll(s, ",", ".")) == CleanFocal(s)
  {
    var f := Subst(',', '.');
    ReplaceAllChar(s, ',', '.');
    KeepsSpaceCommaToPoint();
    TrimMap(s, f);
    LowerCommaToPoint(Trim(s));
    DropUnitCommaToPoint(Lower(Trim(s)));
    CommaToPointTwice(ReplaceAll(Lower(Trim(s)), "mm", ""));
  }

  /** A comma is read as the decimal point: replacing every comma by a point
      does not change the result. */
  lemma FocalLengthCommaIsPoint(s: string)
    ensures NormalizeFocalLength(Some(ReplaceAll(s, ",", "."))) == NormalizeFocalLength(Some(s))
    ensures NormalizeFocalLengthAsWritten(Some(ReplaceAll(s, ",", "."))) == NormalizeFocalLengthAsWritten(Some(s))
  {
    CleanCommaToPoint(s);
  }

  // ------------------------------------------- focal length: test vectors

  /** A decimal literal, bare or followed by "mm" after any run of whitespace,
      normalises to its value rounded to tenths. */
  lemma FocalLengthOfLiteral(d: Decimal, unit: Option<string>)
    requires WellFormed(d) && (unit.Some? ==> AllSpace(unit.value))
    ensures NormalizeFocalLength(Some(Spelling(d) + UnitSuffix(unit))) == RenderMm(Tenths(d))
  {
    CleanSpelling(d, unit);
  }

  // The concrete cases below are each split into a fact about literals and
  // an application of the general lemmas, which keeps every proof small.

  lemma ExampleAbc()
    ensures NormalizeFocalLength(Some("abc")) == NotAvailable
    ensures NormalizeFocalLengthAsWritten(Some("abc")) == NotAvailable
  {
    CleanPlain("abc");
    NotDecimal("abc");
  }

  lemma LiteralsFifty()
    ensures Spelling(Decimal("50", false, "")) + UnitSuffix(Some("")) == "50mm"
    ensures Spelling(Decimal("50", false, "")) + UnitSuffix(Some(" ")) == "50 mm"
    ensures RenderMm(Tenths(Decimal("50", false, ""))) == "50 mm"
    ensures RenderAsWritten(Decimal("50", false, "")) == "50 mm"
  {
    assert Tenths(Decimal("50", false, "")) == 500 by {
      assert "50"[..1] == "5";
      assert "5"[..0] == "";
    }
    assert NatToString(50) == "50";
  }

  lemma Example50Tight()
    ensures NormalizeFocalLength(Some("50mm")) == "50 mm"
    ensures NormalizeFocalLengthAsWritten(Some("50mm")) == "50 mm"
  {
    FocalLengthOfLiteral(Decimal("50", false, ""), Some(""));
    AsWrittenOfLiteral(Decimal("50", false, ""), Some(""));
    LiteralsFifty();
  }

  lemma Example50Spaced()
    ensures NormalizeFocalLength(Some("50 mm")) == "50 mm"
    ensures NormalizeFocalLengthAsWritten(Some("50 mm")) == "50 mm"
  {
    FocalLengthOfLiteral(Decimal("50", false, ""), Some(" "));
    AsWrittenOfLiteral(Decimal("50", false, ""), Some(" "));
    LiteralsFifty();
  }

  lemma LiteralsFiftyPointFive()
    ensures Spelling(Decimal("50", true, "5")) + UnitSuffix(Some("")) == "50.5mm"
    ensures RenderMm(Tenths(Decimal("50", true, "5"))) == "50.5 mm"
    ensures RenderAsWritten(Decimal("50", true, "5")) == "50.5 mm"
  {
    assert Tenths(Decimal("50", true, "5")) == 505 by {
      assert "50"[..1] == "5";
      assert "5"[..0] == "";
    }
    assert NatToString(50) == "50";
  }

  lemma Example50Point5()
    ensures NormalizeFocalLength(Some("50.5mm")) == "50.5 mm"
    ensures NormalizeFocalLengthAsWritten(Some("50.5mm")) == "50.5 mm"
  {
    FocalLengthOfLiteral(Decimal("50", true, "5"), Some(""));
    AsWrittenOfLiteral(Decimal("50", true, "5"), Some(""));
    LiteralsFiftyPointFive();
  }

  lemma CommaFiftyPointFive()
    ensures ReplaceAll("50,5mm", ",", ".") == "50.5mm"
  {
    ReplaceAllChar("50,5mm", ',', '.');
    assert MapChars("50,5mm", Subst(',', '.')) == "50.5mm";
  }

  lemma Example50Comma5()
    ensures NormalizeFocalLength(Some("50,5mm")) == "50.5 mm"
    ensures NormalizeFocalLengthAsWritten(Some("50,5mm")) == "50.5 mm"
  {
    CommaFiftyPointFive();
    FocalLengthCommaIsPoint("50,5mm");
    Example50Point5();
  }

  lemma LiteralsSeventy()
    ensures Spelling(Decimal("70", true, "0")) + UnitSuffix(Some(" ")) == "70.0 mm"
    ensures RenderMm(Tenths(Decimal("70", true, "0"))) == "70 mm"
    ensures RenderAsWritten(Decimal("70", true, "0")) == "70 mm"
  {
    assert Tenths(Decimal("70", true, "0")) == 700 by {
      assert "70"[..1] == "7";
      assert "7"[..0] == "";
    }
    assert NatToString(70) == "70";
  }

  lemma Example70Point0()
    ensures NormalizeFocalLength(Some("70.0 mm")) == "70 mm"
    ensures NormalizeFocalLengthAsWritten(Some("70.0 mm")) == "70 mm"
  {
    FocalLengthOfLiteral(Decimal("70", true, "0"), Some(" "));
    AsWrittenOfLiteral(Decimal("70", true, "0"), Some(" "));
    LiteralsSeventy();
  }

  lemma LiteralsTwentyFour()
    ensures Spelling(Decimal("24", true, "0")) + UnitSuffix(Some(" ")) == "24.0 mm"
    ensures RenderMm(Tenths(Decimal("24", true, "0"))) == "24 mm"
    ensures RenderAsWritten(Decimal("24", true, "0")) == "24 mm"
  {
    assert Tenths(Decimal("24", true, "0")) == 240 by {
      assert "24"[..1] == "2";
      assert "2"[..0] == "";
    }
    assert NatToString(24) == "24";
  }

  lemma Example24Point0()
    ensures NormalizeFocalLength(Some("24.0 mm")) == "24 mm"
    ensures NormalizeFocalLengthAsWritten(Some("24.0 mm")) == "24 mm"
  {
    FocalLengthOfLiteral(Decimal("24", true, "0"), Some(" "));
    AsWrittenOfLiteral(Decimal("24", true, "0"), Some(" "));
    LiteralsTwentyFour();
  }

  lemma CommaTwentyFour()
    ensures ReplaceAll("24,0 mm", ",", ".") == "24.0 mm"
  {
    ReplaceAllChar("24,0 mm", ',', '.');
    assert MapChars("24,0 mm", Subst(',', '.')) == "24.0 mm";
  }

  lemma Example24Comma0()
    ensures NormalizeFocalLength(Some("24,0 mm")) == "24 mm"
    ensures NormalizeFocalLengthAsWritten(Some("24,0 mm")) == "24 mm"
  {
    CommaTwentyFour();
    FocalLengthCommaIsPoint("24,0 mm");
    Example24Point0();
  }

  lemma LiteralsHundredPointFive()
    ensures Spelling(Decimal("100", true, "5")) + UnitSuffix(None) == "100.5"
    ensures RenderMm(Tenths(Decimal("100", true, "5"))) == "100.5 mm"
    ensures RenderAsWritten(Decimal("100", true, "5")) == "100.5 mm"
  {
    assert Tenths(Decimal("100", true, "5")) == 1005 by {
      assert "100"[..2] == "10";
      assert "10"[..1] == "1";
      assert "1"[..0] == "";
    }
    assert NatToString(100) == "100";
  }

  lemma Example100Point5()
    ensures NormalizeFocalLength(Some("100.5")) == "100.5 mm"
    ensures NormalizeFocalLengthAsWritten(Some("100.5")) == "100.5 mm"
  {
    FocalLengthOfLiteral(Decimal("100", true, "5"), None);
    AsWrittenOfLiteral(Decimal("100", true, "5"), None);
    LiteralsHundredPointFive();
  }

  lemma CommaHundred()
    ensures ReplaceAll("100,5", ",", ".") == "100.5"
  {
    ReplaceAllChar("100,5", ',', '.');
    assert MapChars("100,5", Subst(',', '.')) == "100.5";
  }

  lemma Example100Comma5()
    ensures NormalizeFocalLength(Some("100,5")) == "100.5 mm"
    ensures NormalizeFocalLengthAsWritten(Some("100,5")) == "100.5 mm"
  {
    CommaHundred();
    FocalLengthCommaIsPoint("100,5");
    Example100Point5();
  }

  lemma LiteralsEightyFive()
    ensures Spelling(Decimal("85", false, "")) + UnitSuffix(Some(" ")) == "85 mm"
    ensures RenderMm(Tenths(Decimal("85", false, ""))) == "85 mm"
    ensures RenderAsWritten(Decimal("85", false, "")) == "85 mm"
  {
    assert Tenths(Decimal("85", false, "")) == 850 by {
      assert "85"[..1] == "8";
      assert "8"[..0] == "";
    }
    assert NatToString(85) == "85";
  }

  lemma Example85()
    ensures NormalizeFocalLength(Some("85 mm")) == "85 mm"
    ensures NormalizeFocalLengthAsWritten(Some("85 mm")) == "85 mm"
  {
    FocalLengthOfLiteral(Decimal("85", false, ""), Some(" "));
    AsWrittenOfLiteral(Decimal("85", false, ""), Some(" "));
    LiteralsEightyFive();
  }

  lemma LowerEightyFive()
    ensures Lower("85 MM") == "85 mm"
  {
    assert forall i :: 0 <= i < 5 ==> Lower("85 MM")[i] == "85 mm"[i];
  }

  lemma Example85Unpadded()
    ensures NormalizeFocalLength(Some("85 MM")) == "85 mm"
    ensures NormalizeFocalLengthAsWritten(Some("85 MM")) == "85 mm"
  {
    LowerEightyFive();
    FocalLengthIgnoresCase("85 MM");
    Example85();
  }

  lemma Example85Upper()
    ensures NormalizeFocalLength(Some(" 85 MM ")) == "85 mm"
    ensures NormalizeFocalLengthAsWritten(Some(" 85 MM ")) == "85 mm"
  {
    assert " 85 MM " == " " + "85 MM" + " ";
    FocalLengthIgnoresPadding(" ", "85 MM", " ");
    Example85Unpadded();
  }

  lemma LiteralsTwentyFourSpaced()
    ensures Spelling(Decimal("24", false, "")) + UnitSuffix(Some("  ")) == "24  mm"
    ensures RenderMm(Tenths(Decimal("24", false, ""))) == "24 mm"
    ensures RenderAsWritten(Decimal("24", false, "")) == "24 mm"
  {
    assert Tenths(Decimal("24", false, "")) == 240 by {
      assert "24"[..1] == "2";
      assert "2"[..0] == "";
    }
    assert NatToString(24) == "24";
  }

  lemma Example24Gap()
    ensures NormalizeFocalLength(Some("24  mm")) == "24 mm"
    ensures NormalizeFocalLengthAsWritten(Some("24  mm")) == "24 mm"
  {
    FocalLengthOfLiteral(Decimal("24", false, ""), Some("  "));
    AsWrittenOfLiteral(Decimal("24", false, ""), Some("  "));
    LiteralsTwentyFourSpaced();
  }

  lemma Example24Padded()
    ensures NormalizeFocalLength(Some("  24  mm  ")) == "24 mm"
    ensures NormalizeFocalLengthAsWritten(Some("  24  mm  ")) == "24 mm"
  {
    assert "  24  mm  " == "  " + "24  mm" + "  ";
    FocalLengthIgnoresPadding("  ", "24  mm", "  ");
    Example24Gap();
  }

  /** The unit tests of src/utils.rs for focal lengths. */
  lemma FocalLengthExamples()
    ensures NormalizeFocalLength(None) == NotAvailable
    ensures NormalizeFocalLength(Some("abc")) == NotAvailable
    ensures NormalizeFocalLength(Some("50mm")) == "50 mm"
    ensures NormalizeFocalLength(Some("50 mm")) == "50 mm"
    ensures NormalizeFocalLength(Some("50.5mm")) == "50.5 mm"
    ensures NormalizeFocalLength(Some("50,5mm")) == "50.5 mm"
    ensures NormalizeFocalLength(Some(" 85 MM ")) == "85 mm"
    ensures NormalizeFocalLength(Some("  24  mm  ")) == "24 mm"
    ensures NormalizeFocalLength(Some("70.0 mm")) == "70 mm"
    ensures NormalizeFocalLength(Some("24,0 mm")) == "24 mm"
    ensures NormalizeFocalLength(Some("100,5")) == "100.5 mm"
  {
    ExampleAbc();
    Example50Tight();
    Example50Spaced();
    Example50Point5();
    Example50Comma5();
    Example85Upper();
    Example24Padded();
    Example70Point0();
    Example24Comma0();
    Example100Comma5();
  }

  /** The same unit tests against the code as written: none of them has a
      fraction that rounds to a whole number, so they pass there too. */
  lemma FocalLengthAsWrittenExamples()
    ensures NormalizeFocalLengthAsWritten(None) == NotAvailable
    ensures NormalizeFocalLengthAsWritten(Some("abc")) == NotAvailable
    ensures NormalizeFocalLengthAsWritten(Some("50mm")) == "50 mm"
    ensures NormalizeFocalLengthAsWritten(Some("50 mm")) == "50 mm"
    ensures NormalizeFocalLengthAsWritten(Some("50.5mm")) == "50.5 mm"
    ensures NormalizeFocalLengthAsWritten(Some("50,5mm")) == "50.5 mm"
    ensures NormalizeFocalLengthAsWritten(Some(" 85 MM ")) == "85 mm"
    ensures NormalizeFocalLengthAsWritten(Some("  24  mm  ")) == "24 mm"
    ensures NormalizeFocalLengthAsWritten(Some("70.0 mm")) == "70 mm"
    ensures NormalizeFocalLengthAsWritten(Some("24,0 mm")) == "24 mm"
    ensures NormalizeFocalLengthAsWritten(Some("100,5")) == "100.5 mm"
  {
    ExampleAbc();
    Example50Tight();
    Example50Spaced();
    Example50Point5();
    Example50Comma5();
    Example85Upper();
    Example24Padded();
    Example70Point0();
    Example24Comma0();
    Example100Comma5();
  }

  // ------------------------------------------ focal length: the rounding case

  /** The as-written rendering and the corrected one part exactly on values
      that have a fraction but round to a whole number of millimetres. */
  lemma AsWrittenDiffersOnlyWhenRoundedWhole(d: Decimal)
    requires WellFormed(d)
    ensures RenderAsWritten(d) != RenderMm(Tenths(d)) <==> !IsIntegral(d) && Tenths(d) % 10 == 0
  {
    var t := Tenths(d);
    var w := NatToString(t / 10);
    if IsIntegral(d) {
      if |d.fraction| > 0 {
        assert d.fraction[0] == '0';
      }
      if |d.fraction| > 1 {
        assert d.fraction[1] == '0';
      }
      assert t == DigitsValue(d.whole) * 10;
    } else if t % 10 == 0 {
      assert RenderAsWritten(d) == w + "." + "0" + " mm";
      assert RenderMm(t) == w + " mm";
      assert RenderAsWritten(d)[|w|] != RenderMm(t)[|w|];
    }
  }

  /** The code as written and the corrected normaliser give the same text on
      every input except a decimal with a non-zero fraction that rounds to a
      whole number of millimetres. */
  lemma FocalLengthAsWrittenAgrees(focal: Option<string>)
    ensures NormalizeFocalLengthAsWritten(focal) != NormalizeFocalLength(focal) ==>
              && focal.Some? && ParseDecimal(CleanFocal(focal.value)).Some?
              && !IsIntegral(ParseDecimal(CleanFocal(focal.value)).value)
              && Tenths(ParseDecimal(CleanFocal(focal.value)).value) % 10 == 0
  {
    if focal.Some? && ParseDecimal(CleanFocal(focal.value)).Some? {
      AsWrittenDiffersOnlyWhenRoundedWhole(ParseDecimal(CleanFocal(focal.value)).value);
    }
  }

  /** The as-written normaliser, applied to a literal with its unit. */
  lemma AsWrittenOfLiteral(d: Decimal, unit: Option<string>)
    requires WellFormed(d) && (unit.Some? ==> AllSpace(unit.value))
    ensures NormalizeFocalLengthAsWritten(Some(Spelling(d) + UnitSuffix(unit))) == RenderAsWritten(d)
  {
    CleanSpelling(d, unit);
  }

  lemma TenthsRoundsUp()
    ensures Tenths(Decimal("49", true, "96")) == 500
    ensures !IsIntegral(Decimal("49", true, "96"))
  {
    assert "49"[..1] == "4";
    assert "4"[..0] == "";
  }

  lemma LiteralsRoundsUp()
    ensures Spelling(Decimal("49", true, "96")) + UnitSuffix(None) == "49.96"
    ensures RenderMm(Tenths(Decimal("49", true, "96"))) == "50 mm"
  {
    TenthsRoundsUp();
    assert NatToString(50) == "50";
  }

  lemma LiteralsRoundsUpAsWritten()
    ensures Spelling(Decimal("49", true, "96")) + UnitSuffix(None) == "49.96"
    ensures RenderAsWritten(Decimal("49", true, "96")) == "50.0 mm"
  {
    TenthsRoundsUp();
    assert NatToString(50) == "50";
  }

  lemma LiteralsFiftyPointZero()
    ensures Spelling(Decimal("50", true, "0")) + UnitSuffix(Some(" ")) == "50.0 mm"
    ensures RenderAsWritten(Decimal("50", true, "0")) == "50 mm"
  {
    assert IsIntegral(Decimal("50", true, "0"));
    assert DigitsValue("50") == 50 by {
      assert "50"[..1] == "5";
      assert "5"[..0] == "";
    }
    assert NatToString(50) == "50";
  }

  lemma AsWrittenRoundsUp()
    ensures NormalizeFocalLengthAsWritten(Some("49.96")) == "50.0 mm"
  {
    AsWrittenOfLiteral(Decimal("49", true, "96"), None);
    LiteralsRoundsUpAsWritten();
  }

  lemma AsWrittenFiftyPointZero()
    ensures NormalizeFocalLengthAsWritten(Some("50.0 mm")) == "50 mm"
  {
    AsWrittenOfLiteral(Decimal("50", true, "0"), Some(" "));
    LiteralsFiftyPointZero();
  }

  /** As written, normalising is not idempotent: "49.96" becomes "50.0 mm",
      which a second pass turns into "50 mm". */
  lemma FocalLengthAsWrittenNotIdempotent()
    ensures var once := NormalizeFocalLengthAsWritten(Some("49.96"));
      NormalizeFocalLengthAsWritten(Some(once)) != once
  {
    AsWrittenRoundsUp();
    AsWrittenFiftyPointZero();
  }

  /** Corrected, the same input is printed as a whole number at once. */
  lemma FocalLengthRoundsUp()
    ensures NormalizeFocalLength(Some("49.96")) == "50 mm"
  {
    FocalLengthOfLiteral(Decimal("49", true, "96"), None);
    LiteralsRoundsUp();
  }

  // ------------------------------------------------------------ white balance

  /** The values the WhiteBalance column may hold. */
  const Vocabulary: set<string> := {"auto", "daylight", "cloudy", "fluorescent", "tungsten", "shade", "manual"}

  /** The one spelling, besides the vocabulary itself, that has a meaning of
      its own. */
  const AmbiencePriority: string := "auto (ambience priority)"

  /** The text as it is matched: trimmed, then lower-cased. */
  function WhiteBalanceKey(s: string): string {
    Lower(Trim(s))
  }

  /** The `match` of `normalize_white_balance` on the key. */
  function WhiteBalanceOfKey(k: string): (r: string)
    ensures r in Vocabulary
    ensures k in Vocabulary ==> r == k
    ensures k == AmbiencePriority ==> r == "auto"
    ensures k !in Vocabulary && k != AmbiencePriority ==> r == "manual"
  {
    if k == "auto" || k == AmbiencePriority then "auto"
    else if k == "daylight" then "daylight"
    else if k == "cloudy" then "cloudy"
    else if k == "fluorescent" then "fluorescent"
    else if k == "tungsten" then "tungsten"
    else if k == "shade" then "shade"
    else "manual"
  }

  /** `normalize_white_balance`: a recognised setting, whatever its case and
      padding, is kept; the ambience-priority variant of auto is auto; anything
      else, and an absent value, is manual. */
  function NormalizeWhiteBalance(wb: Option<string>): (r: string)
    ensures r in Vocabulary
    ensures wb.None? ==> r == "manual"
    ensures wb.Some? && WhiteBalanceKey(wb.value) in Vocabulary ==> r == WhiteBalanceKey(wb.value)
    ensures wb.Some? && WhiteBalanceKey(wb.value) == AmbiencePriority ==> r == "auto"
    ensures wb.Some? && WhiteBalanceKey(wb.value) !in Vocabulary && WhiteBalanceKey(wb.value) != AmbiencePriority
            ==> r == "manual"
  {
    match wb
    case None => "manual"
    case Some(s) => WhiteBalanceOfKey(WhiteBalanceKey(s))
  }

  /** Every vocabulary word is its own key. */
  lemma VocabularyIsKey(v: string)
    requires v in Vocabulary
    ensures WhiteBalanceKey(v) == v
  {
    assert NoSpaceAtEnds(v) && IsLower(v);
    TrimLowerPlain(v);
  }

  lemma WhiteBalanceIdempotent(wb: Option<string>)
    ensures NormalizeWhiteBalance(Some(NormalizeWhiteBalance(wb))) == NormalizeWhiteBalance(wb)
  {
    VocabularyIsKey(NormalizeWhiteBalance(wb));
  }

  lemma WhiteBalanceIgnoresCase(s: string)
    ensures NormalizeWhiteBalance(Some(Lower(s))) == NormalizeWhiteBalance(Some(s))
  {
    TrimLower(s);
    LowerIdempotent(Trim(s));
  }

  lemma WhiteBalanceIgnoresPadding(a: string, s: string, b: string)
    requires AllSpace(a) && AllSpace(b)
    ensures NormalizeWhiteBalance(Some(a + s + b)) == NormalizeWhiteBalance(Some(s))
  {
    TrimPadded(a, s, b);
  }

  // ------------------------------------------- white balance: test vectors

  /** The key of `a + lit + b`, padding `lit` with whitespace, is the key of
      `lit`, and the key of text without whitespace at its ends is its
      lower-case form. */
  lemma KeyOfPlain(lit: string, k: string)
    requires NoSpaceAtEnds(lit) && Lower(lit) == k
    ensures WhiteBalanceKey(lit) == k
  {
    TrimIdentity(lit);
  }

  lemma KeyOfPadded(a: string, lit: string, b: string, k: string)
    requires AllSpace(a) && AllSpace(b) && NoSpaceAtEnds(lit) && Lower(lit) == k
    ensures WhiteBalanceKey(a + lit + b) == k
  {
    TrimPadded(a, lit, b);
    TrimIdentity(lit);
  }

  lemma KeyAuto()
    ensures WhiteBalanceKey("Auto") == "auto"
  {
    assert Lower("Auto") == "auto" by {
      assert forall i :: 0 <= i < 4 ==> Lower("Auto")[i] == "auto"[i];
    }
    KeyOfPlain("Auto", "auto");
  }

  lemma WhiteBalanceAuto()
    ensures NormalizeWhiteBalance(Some("Auto")) == "auto"
  {
    KeyAuto();
  }

  lemma KeyDaylight()
    ensures WhiteBalanceKey("Daylight") == "daylight"
  {
    assert Lower("Daylight") == "daylight" by {
      assert forall i :: 0 <= i < 8 ==> Lower("Daylight")[i] == "daylight"[i];
    }
    KeyOfPlain("Daylight", "daylight");
  }

  lemma WhiteBalanceDaylight()
    ensures NormalizeWhiteBalance(Some("Daylight")) == "daylight"
  {
    KeyDaylight();
  }

  lemma KeyCustom()
    ensures WhiteBalanceKey("Custom") == "custom"
  {
    assert Lower("Custom") == "custom" by {
      assert forall i :: 0 <= i < 6 ==> Lower("Custom")[i] == "custom"[i];
    }
    KeyOfPlain("Custom", "custom");
  }

  lemma WhiteBalanceCustom()
    ensures NormalizeWhiteBalance(Some("Custom")) == "manual"
  {
    KeyCustom();
  }

  lemma KeyUnknown()
    ensures WhiteBalanceKey("Unknown") == "unknown"
  {
    assert Lower("Unknown") == "unknown" by {
      assert forall i :: 0 <= i < 7 ==> Lower("Unknown")[i] == "unknown"[i];
    }
    KeyOfPlain("Unknown", "unknown");
  }

  lemma WhiteBalanceUnknown()
    ensures NormalizeWhiteBalance(Some("Unknown")) == "manual"
  {
    KeyUnknown();
  }

  lemma KeyAutoUpper()
    ensures WhiteBalanceKey("AUTO") == "auto"
  {
    assert Lower("AUTO") == "auto" by {
      assert forall i :: 0 <= i < 4 ==> Lower("AUTO")[i] == "auto"[i];
    }
    KeyOfPlain("AUTO", "auto");
  }

  lemma WhiteBalanceAutoUpper()
    ensures NormalizeWhiteBalance(Some("AUTO")) == "auto"
  {
    KeyAutoUpper();
  }

  lemma KeyAutoLower()
    ensures WhiteBalanceKey("auto") == "auto"
  {
    assert Lower("auto") == "auto" by {
      assert forall i :: 0 <= i < 4 ==> Lower("auto")[i] == "auto"[i];
    }
    KeyOfPlain("auto", "auto");
  }

  lemma WhiteBalanceAutoLower()
    ensures NormalizeWhiteBalance(Some("auto")) == "auto"
  {
    KeyAutoLower();
  }

  lemma KeyDaylightMixed()
    ensures WhiteBalanceKey("DaYLiGhT") == "daylight"
  {
    assert Lower("DaYLiGhT") == "daylight" by {
      assert forall i :: 0 <= i < 8 ==> Lower("DaYLiGhT")[i] == "daylight"[i];
    }
    KeyOfPlain("DaYLiGhT", "daylight");
  }

  lemma WhiteBalanceDaylightMixed()
    ensures NormalizeWhiteBalance(Some("DaYLiGhT")) == "daylight"
  {
    KeyDaylightMixed();
  }

  lemma KeyTungsten()
    ensures WhiteBalanceKey("TUNGSTEN") == "tungsten"
  {
    assert Lower("TUNGSTEN") == "tungsten" by {
      assert forall i :: 0 <= i < 8 ==> Lower("TUNGSTEN")[i] == "tungsten"[i];
    }
    KeyOfPlain("TUNGSTEN", "tungsten");
  }

  lemma WhiteBalanceTungsten()
    ensures NormalizeWhiteBalance(Some("TUNGSTEN")) == "tungsten"
  {
    KeyTungsten();
  }

  lemma KeyAutoPadded()
    ensures WhiteBalanceKey(" Auto ") == "auto"
  {
    assert Lower("Auto") == "auto" by {
      assert forall i :: 0 <= i < 4 ==> Lower("Auto")[i] == "auto"[i];
    }
    assert " Auto " == " " + "Auto" + " ";
    KeyOfPadded(" ", "Auto", " ", "auto");
  }

  lemma WhiteBalanceAutoPadded()
    ensures NormalizeWhiteBalance(Some(" Auto ")) == "auto"
  {
    KeyAutoPadded();
  }

  lemma KeyDaylightPadded()
    ensures WhiteBalanceKey("  daylight  ") == "daylight"
  {
    assert Lower("daylight") == "daylight" by {
      assert forall i :: 0 <= i < 8 ==> Lower("daylight")[i] == "daylight"[i];
    }
    assert "  daylight  " == "  " + "daylight" + "  ";
    KeyOfPadded("  ", "daylight", "  ", "daylight");
  }

  lemma WhiteBalanceDaylightPadded()
    ensures NormalizeWhiteBalance(Some("  daylight  ")) == "daylight"
  {
    KeyDaylightPadded();
  }

  lemma KeyShadeTabbed()
    ensures WhiteBalanceKey("\tshade\n") == "shade"
  {
    assert Lower("shade") == "shade" by {
      assert forall i :: 0 <= i < 5 ==> Lower("shade")[i] == "shade"[i];
    }
    assert "\tshade\n" == "\t" + "shade" + "\n";
    KeyOfPadded("\t", "shade", "\n", "shade");
  }

  lemma WhiteBalanceShadeTabbed()
    ensures NormalizeWhiteBalance(Some("\tshade\n")) == "shade"
  {
    KeyShadeTabbed();
  }

  lemma KeyAmbience()
    ensures WhiteBalanceKey("Auto (Ambience Priority)") == "auto (ambience priority)"
  {
    assert Lower("Auto (Ambience Priority)") == "auto (ambience priority)" by {
      assert forall i :: 0 <= i < 24 ==> Lower("Auto (Ambience Priority)")[i] == "auto (ambience priority)"[i];
    }
    KeyOfPlain("Auto (Ambience Priority)", "auto (ambience priority)");
  }

  lemma WhiteBalanceAmbience()
    ensures NormalizeWhiteBalance(Some("Auto (Ambience Priority)")) == "auto"
  {
    KeyAmbience();
  }

  lemma KeyAmbienceLower()
    ensures WhiteBalanceKey("auto (ambience priority)") == "auto (ambience priority)"
  {
    assert Lower("auto (ambience priority)") == "auto (ambience priority)" by {
      assert forall i :: 0 <= i < 24 ==> Lower("auto (ambience priority)")[i] == "auto (ambience priority)"[i];
    }
    KeyOfPlain("auto (ambience priority)", "auto (ambience priority)");
  }

  lemma WhiteBalanceAmbienceLower()
    ensures NormalizeWhiteBalance(Some("auto (ambience priority)")) == "auto"
  {
    KeyAmbienceLower();
  }

  lemma KeyAmbiencePadded()
    ensures WhiteBalanceKey(" AUTO (AMBIENCE PRIORITY) ") == "auto (ambience priority)"
  {
    assert Lower("AUTO (AMBIENCE PRIORITY)") == "auto (ambience priority)" by {
      assert forall i :: 0 <= i < 24 ==> Lower("AUTO (AMBIENCE PRIORITY)")[i] == "auto (ambience priority)"[i];
    }
    assert " AUTO (AMBIENCE PRIORITY) " == " " + "AUTO (AMBIENCE PRIORITY)" + " ";
    KeyOfPadded(" ", "AUTO (AMBIENCE PRIORITY)", " ", "auto (ambience priority)");
  }

  lemma WhiteBalanceAmbiencePadded()
    ensures NormalizeWhiteBalance(Some(" AUTO (AMBIENCE PRIORITY) ")) == "auto"
  {
    KeyAmbiencePadded();
  }

  /** The unit tests of src/utils.rs for white balance. */
  lemma WhiteBalanceExamples()
    ensures NormalizeWhiteBalance(None) == "manual"
    ensures NormalizeWhiteBalance(Some("Auto")) == "auto"
    ensures NormalizeWhiteBalance(Some("Daylight")) == "daylight"
    ensures NormalizeWhiteBalance(Some("Custom")) == "manual"
    ensures NormalizeWhiteBalance(Some("Unknown")) == "manual"
    ensures NormalizeWhiteBalance(Some("AUTO")) == "auto"
    ensures NormalizeWhiteBalance(Some("auto")) == "auto"
    ensures NormalizeWhiteBalance(Some("DaYLiGhT")) == "daylight"
    ensures NormalizeWhiteBalance(Some("TUNGSTEN")) == "tungsten"
    ensures NormalizeWhiteBalance(Some(" Auto ")) == "auto"
    ensures NormalizeWhiteBalance(Some("  daylight  ")) == "daylight"
    ensures NormalizeWhiteBalance(Some("\tshade\n")) == "shade"
    ensures NormalizeWhiteBalance(Some("Auto (Ambience Priority)")) == "auto"
    ensures NormalizeWhiteBalance(Some("auto (ambience priority)")) == "auto"
    ensures NormalizeWhiteBalance(Some(" AUTO (AMBIENCE PRIORITY) ")) == "auto"
  {
    WhiteBalanceAuto();
    WhiteBalanceDaylight();
    WhiteBalanceCustom();
    WhiteBalanceUnknown();
    WhiteBalanceAutoUpper();
    WhiteBalanceAutoLower();
    WhiteBalanceDaylightMixed();
    WhiteBalanceTungsten();
    WhiteBalanceAutoPadded();
    WhiteBalanceDaylightPadded();
    WhiteBalanceShadeTabbed();
    WhiteBalanceAmbience();
    WhiteBalanceAmbienceLower();
    WhiteBalanceAmbiencePadded();
  }
}
