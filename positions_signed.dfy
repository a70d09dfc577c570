/**
 * The position grammar corrected to accept the sign that the serializer
 * writes for negative values:
 *
 *   local  `^\^(-?\d+(\.\d+)?) \^(-?\d+(\.\d+)?) \^(-?\d+(\.\d+)?)$`
 *   world  `^(~?)(-?\d+) (~?)(-?\d+) (~?)(-?\d+)$`
 *
 * With it, every world position survives serializing and parsing back.
 */
module PositionsSigned {
  import opened Wrappers
  import opened Ints
  import opened Strings
  import opened Positions

  /** `-?\d+`. */
  predicate IsSignedDigits(t: string) {
    IsDigits(t) || (|t| >= 2 && t[0] == '-' && IsDigits(t[1..]))
  }

  /** `-?\d+(\.\d+)?`. */
  predicate IsSignedLocalNumber(t: string) {
    IsLocalNumber(t) || (|t| >= 2 && t[0] == '-' && IsLocalNumber(t[1..]))
  }

  /** `\^(-?\d+(\.\d+)?)`. */
  predicate IsSignedLocalToken(t: string) {
    |t| >= 1 && t[0] == '^' && IsSignedLocalNumber(t[1..])
  }

  /** `(~?)(-?\d+)`. */
  predicate IsSignedWorldToken(t: string) {
    IsSignedDigits(t) || (|t| >= 1 && t[0] == '~' && IsSignedDigits(t[1..]))
  }

  predicate MatchesSignedLocal(s: string) {
    var ts := Split(s, ' ');
    |ts| == 3 && IsSignedLocalToken(ts[0]) && IsSignedLocalToken(ts[1]) && IsSignedLocalToken(ts[2])
  }

  predicate MatchesSignedWorld(s: string) {
    var ts := Split(s, ' ');
    |ts| == 3 && IsSignedWorldToken(ts[0]) && IsSignedWorldToken(ts[1]) && IsSignedWorldToken(ts[2])
  }

  function SignedLocalValue(t: string): real
    requires IsSignedLocalNumber(t)
  {
    if IsLocalNumber(t) then LocalNumberValue(t) else 0.0 - LocalNumberValue(t[1..])
  }

  /** Value of a matched `-?\d+`. */
  function SignedDigitsValue(t: string): int
    requires IsSignedDigits(t)
  {
    if IsDigits(t) then DigitsValue(t) else 0 - DigitsValue(t[1..])
  }

  /** `Integer.parseInt` on `-?\d+`: fails outside the `int` range. */
  function ParseSignedInt(t: string): (r: Result<int32, PosError>)
    requires IsSignedDigits(t)
    ensures r.Ok? <==> Int32Min <= SignedDigitsValue(t) <= Int32Max
    ensures r.Ok? ==> r.value as int == SignedDigitsValue(t)
    ensures r.Err? ==> r.error == NumberFormatError(t)
  {
    var n := SignedDigitsValue(t);
    if Int32Min <= n <= Int32Max then Ok(n as int32) else Err(NumberFormatError(t))
  }

  /** The `-?\d+` group of a matched `(~?)(-?\d+)`. */
  function SignedWorldDigits(t: string): (d: string)
    requires IsSignedWorldToken(t)
    ensures IsSignedDigits(d)
    ensures (if t[0] == '~' then RelativeSymbol else AbsoluteSymbol) + d == t
  {
    if t[0] == '~' then t[1..] else t
  }

  /** The token's number lies in the `int` range. */
  predicate SignedWorldTokenFits(t: string)
    requires IsSignedWorldToken(t)
  {
    Int32Min <= SignedDigitsValue(SignedWorldDigits(t)) <= Int32Max
  }

  /** `c` is the coordinate the signed token spells. */
  predicate SignedDenotes(c: Coordinate, t: string)
    requires IsSignedWorldToken(t)
  {
    c.value as int == SignedDigitsValue(SignedWorldDigits(t)) && (c.kind == Relative <==> t[0] == '~')
  }

  /** A matched signed world token, converted as `deserializeCoordinate` does. */
  function DeserializeSignedWorldToken(t: string): (r: Result<Coordinate, PosError>)
    requires IsSignedWorldToken(t)
    ensures r.Ok? <==> SignedWorldTokenFits(t)
    ensures r.Ok? ==> SignedDenotes(r.value, t)
    ensures r.Err? ==> r.error == NumberFormatError(SignedWorldDigits(t))
  {
    match ParseSignedInt(SignedWorldDigits(t))
    case Err(e) => Err(e)
    case Ok(i) => if t[0] == '~' then Ok(Coordinate(i, Relative)) else Ok(Coordinate(i, Absolute))
  }

  /** The corrected world pattern's three coordinates, converted from left to right; the first failure wins. */
  function DeserializeSignedWorld(ts: seq<string>): (r: Result<Pos, PosError>)
    requires |ts| == 3 && IsSignedWorldToken(ts[0]) && IsSignedWorldToken(ts[1]) && IsSignedWorldToken(ts[2])
    ensures r.Ok? <==> SignedWorldTokenFits(ts[0]) && SignedWorldTokenFits(ts[1]) && SignedWorldTokenFits(ts[2])
    ensures r.Ok? ==> r.value.WorldPos? && SignedDenotes(r.value.x, ts[0]) && SignedDenotes(r.value.y, ts[1])
                      && SignedDenotes(r.value.z, ts[2])
    ensures !SignedWorldTokenFits(ts[0]) ==> r == Err(NumberFormatError(SignedWorldDigits(ts[0])))
    ensures SignedWorldTokenFits(ts[0]) && !SignedWorldTokenFits(ts[1]) ==> r == Err(NumberFormatError(SignedWorldDigits(ts[1])))
    ensures SignedWorldTokenFits(ts[0]) && SignedWorldTokenFits(ts[1]) && !SignedWorldTokenFits(ts[2]) ==>
              r == Err(NumberFormatError(SignedWorldDigits(ts[2])))
  {
    match DeserializeSignedWorldToken(ts[0])
    case Err(e) => Err(e)
    case Ok(x) =>
      match DeserializeSignedWorldToken(ts[1])
      case Err(e) => Err(e)
      case Ok(y) =>
        match DeserializeSignedWorldToken(ts[2])
        case Err(e) => Err(e)
        case Ok(z) => Ok(WorldPos(x, y, z))
  }

  /** The corrected `deserialize`: same order and errors, signed grammars. */
  function DeserializeSigned(s: string): (r: Result<Pos, PosError>)
    ensures r.Ok? && r.value.LocalPos? <==> MatchesSignedLocal(s)
    ensures r.Ok? && r.value.WorldPos? ==> MatchesSignedWorld(s)
    ensures r.Err? && r.error.ParseError? <==> !MatchesSignedLocal(s) && !MatchesSignedWorld(s)
    ensures r.Err? && r.error.ParseError? ==> r.error.input == s
  {
    var ts := Split(s, ' ');
    if MatchesSignedLocal(s) then
      Ok(LocalPos(SignedLocalValue(ts[0][1..]), SignedLocalValue(ts[1][1..]), SignedLocalValue(ts[2][1..])))
    else if MatchesSignedWorld(s) then
      DeserializeSignedWorld(ts)
    else
      Err(ParseError(s))
  }

  lemma LocalTokenStillAccepted(t: string)
    requires IsLocalToken(t)
    ensures IsSignedLocalToken(t) && SignedLocalValue(t[1..]) == LocalNumberValue(t[1..])
  {
  }

  lemma WorldTokenStillAccepted(t: string)
    requires IsWorldToken(t)
    ensures IsSignedWorldToken(t) && DeserializeSignedWorldToken(t) == DeserializeWorldToken(t)
  {
    if t[0] == '~' {
      assert !IsDigit(t[0]);
      assert !IsDigits(t);
      assert !(t[1..][0] == '-');
    } else {
      assert !(t[0] == '-');
    }
  }

  /** Every string the original grammar accepts, the corrected one accepts with the same result. */
  lemma SignedExtendsOriginal(s: string)
    requires Deserialize(s).Ok?
    ensures DeserializeSigned(s) == Deserialize(s)
  {
    var ts := Split(s, ' ');
    if MatchesLocal(s) {
      LocalTokenStillAccepted(ts[0]);
      LocalTokenStillAccepted(ts[1]);
      LocalTokenStillAccepted(ts[2]);
    } else {
      WorldTokenStillAccepted(ts[0]);
      WorldTokenStillAccepted(ts[1]);
      WorldTokenStillAccepted(ts[2]);
      TokenKindsDisjointSigned(ts[0]);
      assert !MatchesSignedLocal(s);
      assert DeserializeSigned(s) == DeserializeSignedWorld(ts);
    }
  }

  lemma TokenKindsDisjointSigned(t: string)
    ensures !(IsSignedLocalToken(t) && IsSignedWorldToken(t))
  {
  }

  /** The corrected grammars still exclude each other. */
  lemma SignedGrammarsExclusive(s: string)
    ensures !(MatchesSignedLocal(s) && MatchesSignedWorld(s))
  {
    TokenKindsDisjointSigned(Split(s, ' ')[0]);
  }

  /** The decimal text of any `int` is a `-?\d+` denoting it. */
  lemma IntTextRoundTrip(v: int)
    ensures IsSignedDigits(IntToString(v)) && SignedDigitsValue(IntToString(v)) == v
    ensures ' ' !in IntToString(v) && IntToString(v)[0] != '~'
  {
    var digits := if v < 0 then NatToString(-v) else NatToString(v);
    NatToStringValue(if v < 0 then -v else v);
    DigitsHaveNoSpace(digits);
    var number := IntToString(v);
    if v < 0 {
      assert number == ['-'] + digits && number[1..] == digits;
      assert !IsDigit(number[0]);
    }
  }

  /** Any coordinate serializes to a signed world token that converts back to it. */
  lemma SignedCoordinateRoundTrip(c: Coordinate)
    ensures IsSignedWorldToken(SerializeCoordinate(c)) && ' ' !in SerializeCoordinate(c)
    ensures DeserializeSignedWorldToken(SerializeCoordinate(c)) == Ok(c)
  {
    var number := IntToString(c.value as int);
    IntTextRoundTrip(c.value as int);
    var t := SerializeCoordinate(c);
    if c.kind == Relative {
      assert t == ['~'] + number && t[1..] == number;
    } else {
      assert t == number;
    }
  }

  /** Three space-free signed world tokens joined by spaces are parsed as their coordinates. */
  lemma SignedWorldComplete(s: string, a: string, b: string, c: string)
    requires s == a + " " + b + " " + c
    requires IsSignedWorldToken(a) && IsSignedWorldToken(b) && IsSignedWorldToken(c)
    requires ' ' !in a && ' ' !in b && ' ' !in c
    ensures DeserializeSigned(s) == DeserializeSignedWorld([a, b, c])
  {
    SplitThree(a, b, c);
    TokenKindsDisjointSigned(a);
  }

  /** With the sign admitted, EVERY world position survives serializing and parsing back. */
  lemma SignedWorldRoundTrip(p: Pos, format: real -> string)
    requires p.WorldPos?
    ensures DeserializeSigned(Serialize(p, format)) == Ok(p)
  {
    var a, b, c := SerializeCoordinate(p.x), SerializeCoordinate(p.y), SerializeCoordinate(p.z);
    SignedCoordinateRoundTrip(p.x);
    SignedCoordinateRoundTrip(p.y);
    SignedCoordinateRoundTrip(p.z);
    var s := Serialize(p, format);
    JoinThree(a, b, c, ' ');
    assert s == a + " " + b + " " + c;
    var ts := [a, b, c];
    assert ts[0] == a && ts[1] == b && ts[2] == c;
    assert DeserializeSignedWorld(ts) == Ok(p);
    SignedWorldComplete(s, a, b, c);
  }

  /** The double-to-text rule writes `v` as a `-?\d+(\.\d+)?` literal denoting `v` exactly. */
  ghost predicate FormatsFaithfullySigned(format: real -> string, v: real) {
    IsSignedLocalNumber(format(v)) && SignedLocalValue(format(v)) == v
  }

  lemma SignedLocalNumberHasNoSpace(t: string)
    requires IsSignedLocalNumber(t)
    ensures ' ' !in t
  {
    if IsLocalNumber(t) {
      LocalNumberHasNoSpace(t);
    } else {
      LocalNumberHasNoSpace(t[1..]);
      assert t == [t[0]] + t[1..];
    }
  }

  /** Three space-free signed local tokens joined by spaces are parsed as the local position of their values. */
  lemma SignedLocalComplete(s: string, a: string, b: string, c: string)
    requires s == a + " " + b + " " + c
    requires IsSignedLocalToken(a) && IsSignedLocalToken(b) && IsSignedLocalToken(c)
    requires ' ' !in a && ' ' !in b && ' ' !in c
    ensures DeserializeSigned(s) == Ok(LocalPos(SignedLocalValue(a[1..]), SignedLocalValue(b[1..]), SignedLocalValue(c[1..])))
  {
    SplitThree(a, b, c);
  }

  /** A local position round-trips through the corrected grammar whenever its offsets are written faithfully. */
  lemma SignedLocalRoundTrip(p: Pos, format: real -> string)
    requires p.LocalPos?
    requires FormatsFaithfullySigned(format, p.left) && FormatsFaithfullySigned(format, p.up)
    requires FormatsFaithfullySigned(format, p.forwards)
    ensures DeserializeSigned(Serialize(p, format)) == Ok(p)
  {
    var a, b, c := SerializeLocal(p.left, format), SerializeLocal(p.up, format), SerializeLocal(p.forwards, format);
    assert a[1..] == format(p.left) && b[1..] == format(p.up) && c[1..] == format(p.forwards);
    SignedLocalNumberHasNoSpace(format(p.left));
    SignedLocalNumberHasNoSpace(format(p.up));
    SignedLocalNumberHasNoSpace(format(p.forwards));
    assert a == ['^'] + a[1..] && b == ['^'] + b[1..] && c == ['^'] + c[1..];
    var s := Serialize(p, format);
    JoinThree(a, b, c, ' ');
    assert s == a + " " + b + " " + c;
    SignedLocalComplete(s, a, b, c);
  }

  /**
   * A concrete negative position: `-5 64 ~-3` is what the serializer writes for
   * it; the original parser rejects that text and the corrected one reads it back.
   */
  lemma NegativeWorldExample(format: real -> string)
    ensures var p := WorldPos(Coordinate(-5, Absolute), Coordinate(64, Absolute), Coordinate(-3, Relative));
            && Serialize(p, format) == "-5 64 ~-3"
            && Deserialize("-5 64 ~-3") == Err(ParseError("-5 64 ~-3"))
            && DeserializeSigned("-5 64 ~-3") == Ok(p)
  {
    var p := WorldPos(Coordinate(-5, Absolute), Coordinate(64, Absolute), Coordinate(-3, Relative));
    assert NatToString(64) == "64";
    assert Serialize(p, format) == "-5 64 ~-3";
    NegativeWorldPosRejected(p, format);
    SignedWorldRoundTrip(p, format);
  }
}
