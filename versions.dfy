/**
 * The GIR version number (src/version.rs): a 16-bit major number followed by
 * an optional minor and an optional patch number, parsed leniently from
 * dotted text, printed back, and ordered component by component.
 */
module Versions {
  import opened Wrappers
  import opened Text

  newtype u16 = x: int | 0 <= x < 0x1_0000

  const U16Max: nat := 0xFFFF

  datatype Version = Version(major: u16, minor: Option<u16>, patch: Option<u16>)

  /** The version `Default` gives, and the one every unparsable string yields. */
  const Zero: Version := Version(0, None, None)

  /** `Version::new`: all three components present; such a version survives printing and parsing. */
  function New(major: u16, minor: u16, patch: u16): (v: Version)
    ensures v == Version(major, Some(minor), Some(patch))
    ensures Parse(Display(v)) == v
  {
    var v := Version(major, Some(minor), Some(patch));
    ParseDisplay(v);
    v
  }

  /** One dotted segment, read with `str::parse::<u16>`. */
  function ParseSegment(s: string): (r: Option<u16>)
    ensures r.Some? ==> ParseUnsigned(s, U16Max) == Some(r.value as nat)
    ensures r.None? ==> ParseUnsigned(s, U16Max).None?
    ensures r.Some? <==> |Unsigned(s)| >= 1 && AllDigits(Unsigned(s)) && DigitsValue(Unsigned(s)) <= U16Max
    ensures r.Some? ==> AllDigits(Unsigned(s)) && r.value as nat == DigitsValue(Unsigned(s))
  {
    match ParseUnsigned(s, U16Max)
    case Some(n) => Some(n as u16)
    case None => None
  }

  /** `s.splitn(n, sep)`: like `split`, but the n-th piece keeps the rest of the text. */
  function SplitN(s: string, sep: char, n: nat): (r: seq<string>)
    requires n >= 1
    ensures 1 <= |r| <= n
    ensures |Split(s, sep)| <= n ==> r == Split(s, sep)
    ensures forall i :: 0 <= i < |r| - 1 ==> r[i] == Split(s, sep)[i]
    ensures |Split(s, sep)| > n ==> |r| == n && r[n - 1] == Join(Split(s, sep)[n - 1..], sep)
  {
    var pieces := Split(s, sep);
    if |pieces| <= n then pieces
    else pieces[..n - 1] + [Join(pieces[n - 1..], sep)]
  }

  /** `.map(str::parse).take_while(Result::is_ok).map(Result::unwrap)`. */
  function ParsedPrefix(pieces: seq<string>): (r: seq<u16>)
    ensures |r| <= |pieces|
    ensures forall i :: 0 <= i < |r| ==> ParseSegment(pieces[i]) == Some(r[i])
    ensures |r| < |pieces| ==> ParseSegment(pieces[|r|]).None?
    decreases |pieces|
  {
    if |pieces| == 0 then []
    else match ParseSegment(pieces[0])
      case None => []
      case Some(v) => [v] + ParsedPrefix(pieces[1..])
  }

  /** `Self(parts.next().unwrap_or(0), parts.next(), parts.next())`. */
  function FromParts(parts: seq<u16>): Version
  {
    Version(if |parts| > 0 then parts[0] else 0,
            if |parts| > 1 then Some(parts[1]) else None,
            if |parts| > 2 then Some(parts[2]) else None)
  }

  /**
   * `Version::from_str`, which never fails. With a dot, the leading run of
   * valid segments among the first three gives the components; without
   * one, the whole text is the major number, or 0 when it is not a number.
   * A patch number is only ever read after a minor number.
   */
  function Parse(s: string): (v: Version)
    ensures v.patch.Some? ==> v.minor.Some?
    ensures '.' !in s ==> v.minor.None? && v.patch.None?
    ensures '.' !in s ==> v.major == ParseSegment(s).GetOr(0)
  {
    if '.' in s then FromParts(ParsedPrefix(SplitN(s, '.', 4)))
    else Version(ParseSegment(s).GetOr(0), None, None)
  }

  /** The `Display` text: `M`, `M.m`, `M.0.p` or `M.m.p`. */
  function Display(v: Version): string
  {
    match v
    case Version(major, None, None) => NatToString(major as nat)
    case Version(major, Some(minor), None) => NatToString(major as nat) + "." + NatToString(minor as nat)
    case Version(major, None, Some(patch)) => NatToString(major as nat) + ".0." + NatToString(patch as nat)
    case Version(major, Some(minor), Some(patch)) =>
      NatToString(major as nat) + "." + NatToString(minor as nat) + "." + NatToString(patch as nat)
  }

  /** The numbers `Display` prints, in order (a missing minor before a patch prints as 0). */
  function DisplayedParts(v: Version): seq<u16>
  {
    match v
    case Version(major, None, None) => [major]
    case Version(major, Some(minor), None) => [major, minor]
    case Version(major, None, Some(patch)) => [major, 0, patch]
    case Version(major, Some(minor), Some(patch)) => [major, minor, patch]
  }

  function Rendered(parts: seq<u16>): (r: seq<string>)
    ensures |r| == |parts|
    ensures forall i :: 0 <= i < |r| ==> r[i] == NatToString(parts[i] as nat)
  {
    seq(|parts|, i requires 0 <= i < |parts| => NatToString(parts[i] as nat))
  }

  /** `Display` writes the displayed parts joined by dots. */
  lemma DisplayIsJoin(v: Version)
    ensures Display(v) == Join(Rendered(DisplayedParts(v)), '.')
  {
    var r := Rendered(DisplayedParts(v));
    if |r| == 2 {
      assert Join(r[1..], '.') == r[1];
    } else if |r| == 3 {
      assert Join(r[2..], '.') == r[2];
      assert Join(r[1..], '.') == r[1] + "." + r[2];
    }
  }

  /** Every character `Display` writes is a digit or a dot. */
  lemma DisplayAlphabet(v: Version)
    ensures forall i :: 0 <= i < |Display(v)| ==> IsDigit(Display(v)[i]) || Display(v)[i] == '.'
  {
  }

  /** Parsing the dot-joined decimal renderings of up to three numbers gives them back. */
  lemma {:induction false} ParseRendered(parts: seq<u16>)
    requires 1 <= |parts| <= 3
    ensures Parse(Join(Rendered(parts), '.')) == FromParts(parts)
  {
    var pieces := Rendered(parts);
    var s := Join(pieces, '.');
    forall i | 0 <= i < |pieces|
      ensures '.' !in pieces[i] && ParseSegment(pieces[i]) == Some(parts[i])
    {
      ParseNatToString(parts[i] as nat, U16Max);
      assert '.' !in pieces[i] by {
        assert AllDigits(pieces[i]);
      }
    }
    SplitJoin(pieces, '.');
    if |parts| == 1 {
      assert s == pieces[0];
    } else {
      assert s == pieces[0] + ['.'] + Join(pieces[1..], '.');
      assert '.' in s by {
        assert s[|pieces[0]|] == '.';
      }
      var pre := ParsedPrefix(SplitN(s, '.', 4));
      assert SplitN(s, '.', 4) == pieces;
      PrefixOfValid(pieces, parts);
      assert pre == parts;
    }
  }

  /** When every piece is a valid segment, the parsed prefix is all of them. */
  lemma {:induction false} PrefixOfValid(pieces: seq<string>, parts: seq<u16>)
    requires |pieces| == |parts|
    requires forall i :: 0 <= i < |pieces| ==> ParseSegment(pieces[i]) == Some(parts[i])
    ensures ParsedPrefix(pieces) == parts
    decreases |pieces|
  {
    if |pieces| > 0 {
      PrefixOfValid(pieces[1..], parts[1..]);
      assert parts == [parts[0]] + parts[1..];
    }
  }

  /**
   * Printing then parsing is the identity on every version whose patch
   * number does not stand without a minor number.
   */
  lemma ParseDisplay(v: Version)
    requires v.patch.Some? ==> v.minor.Some?
    ensures Parse(Display(v)) == v
  {
    DisplayIsJoin(v);
    ParseRendered(DisplayedParts(v));
  }

  /** A patch without a minor number prints a padding 0 that is read back as the minor number. */
  lemma ParseDisplayPadded(major: u16, patch: u16)
    ensures Parse(Display(Version(major, None, Some(patch)))) == Version(major, Some(0), Some(patch))
  {
    var v := Version(major, None, Some(patch));
    DisplayIsJoin(v);
    ParseRendered(DisplayedParts(v));
  }

  /** Parsing normalises: printing a parsed version and parsing again changes nothing. */
  lemma ParseIdempotent(s: string)
    ensures Parse(Display(Parse(s))) == Parse(s)
  {
    ParseDisplay(Parse(s));
  }

  /**
   * The branch for text without a dot computes what the dotted branch would:
   * without a dot, `splitn` yields the whole text as its only piece.
   */
  lemma UndottedBranchAgrees(s: string)
    requires '.' !in s
    ensures Parse(s) == FromParts(ParsedPrefix(SplitN(s, '.', 4)))
  {
    SplitSeparatorFree(s, "", '.');
    assert s + "" == s;
    assert Split(s, '.') == [s];
  }

  /** The decimal rendering of a number has no dot in it. */
  lemma RenderingUndotted(n: nat)
    ensures '.' !in NatToString(n)
  {
    var s := NatToString(n);
    assert AllDigits(s);
  }

  /**
   * Reading stops at the first invalid segment: after a valid major number,
   * a second segment that is not a number leaves minor and patch absent,
   * whatever follows it ("3." and "5.invalid.7" both give only a major number).
   */
  lemma ParseStopsAtInvalid(major: u16, t: string)
    requires ParseSegment(Split(t, '.')[0]).None?
    ensures Parse(NatToString(major as nat) + "." + t) == Version(major, None, None)
  {
    var p := NatToString(major as nat);
    var s := p + "." + t;
    RenderingUndotted(major as nat);
    SplitAfterPiece(p, t, '.');
    assert s == p + ['.'] + t;
    assert '.' in s by {
      assert s[|p|] == '.';
    }
    var pieces := SplitN(s, '.', 4);
    assert pieces[0] == p;
    assert pieces[1] == Split(t, '.')[0];
    ParseNatToString(major as nat, U16Max);
    var pre := ParsedPrefix(pieces);
    assert ParseSegment(pieces[0]) == Some(major);
    assert pre == [major] + ParsedPrefix(pieces[1..]);
    assert pre == [major];
  }

  /**
   * Only the first three segments are read: a fourth segment, and anything
   * after it, is ignored ("1.2.3.4" is 1.2.3).
   */
  lemma ParseIgnoresFourthSegment(major: u16, minor: u16, patch: u16, rest: string)
    ensures Parse(Display(Version(major, Some(minor), Some(patch))) + "." + rest) == Version(major, Some(minor), Some(patch))
  {
    var a, b, c := NatToString(major as nat), NatToString(minor as nat), NatToString(patch as nat);
    var s := Display(Version(major, Some(minor), Some(patch))) + "." + rest;
    assert Display(Version(major, Some(minor), Some(patch))) == a + "." + b + "." + c;
    var tail := c + ['.'] + rest;
    var mid := b + ['.'] + tail;
    assert s == a + ['.'] + mid;
    SplitThree(major, minor, patch, a, b, c, rest);
    assert '.' in s by {
      assert s[|a|] == '.';
    }
    var pieces := SplitN(s, '.', 4);
    assert |Split(s, '.')| >= 4;
    assert pieces[0] == a && pieces[1] == b && pieces[2] == c;
    ParseNatToString(major as nat, U16Max);
    ParseNatToString(minor as nat, U16Max);
    ParseNatToString(patch as nat, U16Max);
    var pre := ParsedPrefix(pieces);
    assert |pre| >= 3;
  }

  lemma SplitThree(major: u16, minor: u16, patch: u16, a: string, b: string, c: string, rest: string)
    requires a == NatToString(major as nat) && b == NatToString(minor as nat) && c == NatToString(patch as nat)
    ensures Split(a + ['.'] + (b + ['.'] + (c + ['.'] + rest)), '.') == [a, b, c] + Split(rest, '.')
  {
    RenderingUndotted(major as nat);
    RenderingUndotted(minor as nat);
    RenderingUndotted(patch as nat);
    SplitAfterPiece(c, rest, '.');
    SplitAfterPiece(b, c + ['.'] + rest, '.');
    SplitAfterPiece(a, b + ['.'] + (c + ['.'] + rest), '.');
  }

  /** "3." reads as a bare major number. */
  lemma ParseTrailingDot()
    ensures Parse("3.") == Version(3, None, None)
  {
    assert NatToString(3) == "3";
    assert "3" + "." + "" == "3.";
    ParseStopsAtInvalid(3, "");
  }

  /** "5.invalid.7" reads as a bare major number. */
  lemma ParseInvalidMinor()
    ensures Parse("5.invalid.7") == Version(5, None, None)
  {
    assert NatToString(5) == "5";
    assert "5" + "." + "invalid.7" == "5.invalid.7";
    SplitSeparatorFree("invalid", ".7", '.');
    assert "invalid" + ".7" == "invalid.7";
    assert !IsDigit("invalid"[0]);
    ParseStopsAtInvalid(5, "invalid.7");
  }

  /** Text that is not a number, the empty text included, reads as 0. */
  lemma ParseNotANumber()
    ensures Parse("") == Zero
    ensures Parse("invalid") == Zero
  {
    assert !IsDigit("invalid"[0]);
  }

  /** A dotted text whose first segment is not a number reads as 0, whatever follows. */
  lemma ParseLeadingInvalid(s: string)
    requires '.' in s && ParseSegment(Split(s, '.')[0]).None?
    ensures Parse(s) == Zero
  {
    SplitAtSeparator(s, '.');
    assert SplitN(s, '.', 4)[0] == Split(s, '.')[0];
  }

  /** `impl PartialEq<str> for Version`: the text parses to this version. */
  predicate EqStr(v: Version, s: string)
  {
    Parse(s) == v
  }

  /** A version equals its own printed text exactly when it round-trips. */
  lemma EqOwnDisplay(v: Version)
    ensures EqStr(v, Display(v)) <==> (v.patch.Some? ==> v.minor.Some?)
  {
    if v.patch.Some? && v.minor.None? {
      ParseDisplayPadded(v.major, v.patch.value);
    } else {
      ParseDisplay(v);
    }
  }

  /** Text no version is parsed from cannot equal that version: the accepted texts of two versions are disjoint. */
  lemma EqStrFunctional(v: Version, w: Version, s: string)
    requires EqStr(v, s) && EqStr(w, s)
    ensures v == w
  {
  }

  datatype Ordering = Less | Equal | Greater
  {
    function Reverse(): Ordering
    {
      match this
      case Less => Greater
      case Equal => Equal
      case Greater => Less
    }
  }

  function CompareU16(a: u16, b: u16): Ordering
  {
    if a < b then Less else if a == b then Equal else Greater
  }

  /** The derived order on `Option<u16>`: `None` before every `Some`. */
  function CompareOption(a: Option<u16>, b: Option<u16>): Ordering
  {
    match (a, b)
    case (None, None) => Equal
    case (None, Some(_)) => Less
    case (Some(_), None) => Greater
    case (Some(x), Some(y)) => CompareU16(x, y)
  }

  /** The derived `Ord`: major, then minor, then patch. */
  function Compare(a: Version, b: Version): (r: Ordering)
    ensures r == Equal <==> a == b
  {
    var m := CompareU16(a.major, b.major);
    if m != Equal then m
    else
      var n := CompareOption(a.minor, b.minor);
      if n != Equal then n
      else CompareOption(a.patch, b.patch)
  }

  /** Swapping the operands reverses the answer. */
  lemma CompareReverse(a: Version, b: Version)
    ensures Compare(b, a) == Compare(a, b).Reverse()
  {
  }

  predicate Below(a: Version, b: Version)
  {
    Compare(a, b) == Less
  }

  /** The order is transitive, so together with `Compare`'s contract it is a strict total order. */
  lemma BelowTransitive(a: Version, b: Version, c: Version)
    requires Below(a, b) && Below(b, c)
    ensures Below(a, c)
  {
  }

  /** Major numbers decide first; a missing component sorts before any present one. */
  lemma OrderExamples()
    ensures Below(Version(1, None, None), Version(2, None, None))
    ensures Below(Version(1, None, None), Version(1, Some(0), None))
    ensures Below(Version(1, Some(2), None), New(1, 2, 0))
    ensures Below(New(1, 2, 9), New(1, 10, 0))
  {
  }
}
