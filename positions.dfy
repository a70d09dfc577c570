/**
 * The block-position string grammar of the JSON text serializer
 * (`BlockNbtComponentPosSerializer`), as written. The two regular
 * expressions are replaced by hand-written matchers:
 *
 *   local  `^\^(\d+(\.\d+)?) \^(\d+(\.\d+)?) \^(\d+(\.\d+)?)$`
 *   world  `^(~?)(\d+) (~?)(\d+) (~?)(\d+)$`
 *
 * Both must match the whole string. Local offsets are kept as the exact
 * decimal value of the matched text; Java rounds it to a `double`.
 */
module Positions {
  import opened Wrappers
  import opened Ints
  import opened Strings

  datatype CoordinateType = Absolute | Relative

  datatype Coordinate = Coordinate(value: int32, kind: CoordinateType)

  datatype Pos =
    | LocalPos(left: real, up: real, forwards: real)
    | WorldPos(x: Coordinate, y: Coordinate, z: Coordinate)

  datatype PosError =
    | ParseError(input: string)       // JsonParseException naming the string
    | NumberFormatError(digits: string)  // NumberFormatException from Integer.parseInt

  const LocalSymbol: string := "^"
  const RelativeSymbol: string := "~"
  const AbsoluteSymbol: string := ""

  // ---------------------------------------------------------------- local grammar

  /** `\d+(\.\d+)?`: digits, then optionally a point and more digits. */
  predicate IsLocalNumber(t: string) {
    var i := IndexOf(t, '.');
    if i < 0 then IsDigits(t) else IsDigits(t[..i]) && IsDigits(t[i + 1..])
  }

  /** `\^(\d+(\.\d+)?)`. */
  predicate IsLocalToken(t: string) {
    |t| >= 1 && t[0] == '^' && IsLocalNumber(t[1..])
  }

  /** The decimal `whole.fraction`. */
  function DecimalValue(whole: string, fraction: string): real
    requires IsDigits(whole) && IsDigits(fraction)
  {
    DigitsValue(whole) as real + DigitsValue(fraction) as real / Pow10(|fraction|) as real
  }

  /** Exact value of a matched `\d+(\.\d+)?`. */
  function LocalNumberValue(t: string): (v: real)
    requires IsLocalNumber(t)
    ensures 0.0 <= v
  {
    var i := IndexOf(t, '.');
    if i < 0 then DigitsValue(t) as real else DecimalValue(t[..i], t[i + 1..])
  }

  /** The whole string matches the local pattern. */
  predicate MatchesLocal(s: string) {
    var ts := Split(s, ' ');
    |ts| == 3 && IsLocalToken(ts[0]) && IsLocalToken(ts[1]) && IsLocalToken(ts[2])
  }

  // ---------------------------------------------------------------- world grammar

  /** `(~?)(\d+)`. */
  predicate IsWorldToken(t: string) {
    IsDigits(t) || (|t| >= 1 && t[0] == '~' && IsDigits(t[1..]))
  }

  /** The two capture groups of a matched `(~?)(\d+)`: the prefix and the digits. */
  function WorldGroups(t: string): (g: (string, string))
    requires IsWorldToken(t)
    ensures g.0 == AbsoluteSymbol || g.0 == RelativeSymbol
    ensures g.0 + g.1 == t && IsDigits(g.1)
  {
    if t[0] == '~' then (RelativeSymbol, t[1..]) else (AbsoluteSymbol, t)
  }

  /** The whole string matches the world pattern. */
  predicate MatchesWorld(s: string) {
    var ts := Split(s, ' ');
    |ts| == 3 && IsWorldToken(ts[0]) && IsWorldToken(ts[1]) && IsWorldToken(ts[2])
  }

  // ---------------------------------------------------------------- deserializing

  /** `Integer.parseInt` on a digit string: fails above `Integer.MAX_VALUE`. */
  function ParseInt(digits: string): (r: Result<int32, PosError>)
    requires IsDigits(digits)
    ensures r.Ok? <==> DigitsValue(digits) <= Int32Max
    ensures r.Ok? ==> r.value as int == DigitsValue(digits)
    ensures r.Err? ==> r.error == NumberFormatError(digits)
  {
    var n := DigitsValue(digits);
    if n <= Int32Max then Ok(n as int32) else Err(NumberFormatError(digits))
  }

  /** `deserializeCoordinate(prefix, value)`. */
  function DeserializeCoordinate(prefix: string, digits: string): (r: Result<Coordinate, PosError>)
    requires prefix == AbsoluteSymbol || prefix == RelativeSymbol
    requires IsDigits(digits)
    ensures r.Ok? <==> DigitsValue(digits) <= Int32Max
    ensures r.Ok? ==> r.value.value as int == DigitsValue(digits)
    ensures r.Ok? ==> (r.value.kind == Relative <==> prefix == RelativeSymbol)
    ensures r.Err? ==> r.error == NumberFormatError(digits)
  {
    match ParseInt(digits)
    case Err(e) => Err(e)
    case Ok(i) =>
      if prefix == AbsoluteSymbol then Ok(Coordinate(i, Absolute)) else Ok(Coordinate(i, Relative))
  }

  /** The matched token's digits fit in an `int`, so `Integer.parseInt` accepts them. */
  predicate WorldTokenFits(t: string)
    requires IsWorldToken(t)
  {
    DigitsValue(WorldGroups(t).1) <= Int32Max
  }

  /** `c` is the coordinate the token spells: its digits' value, relative exactly when it starts with `~`. */
  predicate Denotes(c: Coordinate, t: string)
    requires IsWorldToken(t)
  {
    c.value as int == DigitsValue(WorldGroups(t).1) && (c.kind == Relative <==> t[0] == '~')
  }

  /** A matched world token, converted. */
  function DeserializeWorldToken(t: string): (r: Result<Coordinate, PosError>)
    requires IsWorldToken(t)
    ensures r.Ok? <==> WorldTokenFits(t)
    ensures r.Ok? ==> Denotes(r.value, t)
    ensures r.Err? ==> r.error == NumberFormatError(WorldGroups(t).1)
  {
    var g := WorldGroups(t);
    DeserializeCoordinate(g.0, g.1)
  }

  /** The world pattern's three coordinates, converted from left to right; the first failure wins. */
  function DeserializeWorld(ts: seq<string>): (r: Result<Pos, PosError>)
    requires |ts| == 3 && IsWorldToken(ts[0]) && IsWorldToken(ts[1]) && IsWorldToken(ts[2])
    ensures r.Ok? <==> WorldTokenFits(ts[0]) && WorldTokenFits(ts[1]) && WorldTokenFits(ts[2])
    ensures r.Ok? ==> r.value.WorldPos? && Denotes(r.value.x, ts[0]) && Denotes(r.value.y, ts[1]) && Denotes(r.value.z, ts[2])
    ensures !WorldTokenFits(ts[0]) ==> r == Err(NumberFormatError(WorldGroups(ts[0]).1))
    ensures WorldTokenFits(ts[0]) && !WorldTokenFits(ts[1]) ==> r == Err(NumberFormatError(WorldGroups(ts[1]).1))
    ensures WorldTokenFits(ts[0]) && WorldTokenFits(ts[1]) && !WorldTokenFits(ts[2]) ==>
              r == Err(NumberFormatError(WorldGroups(ts[2]).1))
  {
    match DeserializeWorldToken(ts[0])
    case Err(e) => Err(e)
    case Ok(x) =>
      match DeserializeWorldToken(ts[1])
      case Err(e) => Err(e)
      case Ok(y) =>
        match DeserializeWorldToken(ts[2])
        case Err(e) => Err(e)
        case Ok(z) => Ok(WorldPos(x, y, z))
  }

  /** A token is never both a local and a world token: `^` is neither `~` nor a digit. */
  lemma TokenKindsDisjoint(t: string)
    ensures !(IsLocalToken(t) && IsWorldToken(t))
  {
  }

  /** No string matches both grammars. */
  lemma GrammarsExclusive(s: string)
    ensures !(MatchesLocal(s) && MatchesWorld(s))
  {
    TokenKindsDisjoint(Split(s, ' ')[0]);
  }

  /** `deserialize`: the local pattern first, then the world pattern, else a parse error naming the input. */
  function Deserialize(s: string): (r: Result<Pos, PosError>)
    ensures r.Ok? && r.value.LocalPos? <==> MatchesLocal(s)
    ensures r.Ok? && r.value.WorldPos? ==> MatchesWorld(s)
    ensures r.Err? && r.error.NumberFormatError? ==> MatchesWorld(s)
    ensures r.Err? && r.error.ParseError? <==> !MatchesLocal(s) && !MatchesWorld(s)
    ensures r.Err? && r.error.ParseError? ==> r.error.input == s
  {
    var ts := Split(s, ' ');
    if MatchesLocal(s) then
      Ok(LocalPos(LocalNumberValue(ts[0][1..]), LocalNumberValue(ts[1][1..]), LocalNumberValue(ts[2][1..])))
    else if MatchesWorld(s) then
      DeserializeWorld(ts)
    else
      Err(ParseError(s))
  }

  // ---------------------------------------------------------------- serializing

  /** `serializeLocal`: `^` and the number as the caller's double-to-text rule writes it. */
  function SerializeLocal(v: real, format: real -> string): (t: string)
    ensures |t| >= 1 && t[0] == '^' && t[1..] == format(v)
  {
    LocalSymbol + format(v)
  }

  /** `serializeCoordinate`: `~` for a relative coordinate, then the decimal value. */
  function SerializeCoordinate(c: Coordinate): (t: string)
    ensures c.kind == Relative ==> t == RelativeSymbol + IntToString(c.value as int)
    ensures c.kind == Absolute ==> t == IntToString(c.value as int)
  {
    (if c.kind == Relative then RelativeSymbol else AbsoluteSymbol) + IntToString(c.value as int)
  }

  /** `serialize`: three tokens joined by single spaces. */
  function Serialize(p: Pos, format: real -> string): (s: string)
    ensures p.LocalPos? ==> s == Join([SerializeLocal(p.left, format), SerializeLocal(p.up, format), SerializeLocal(p.forwards, format)], ' ')
    ensures p.WorldPos? ==> s == Join([SerializeCoordinate(p.x), SerializeCoordinate(p.y), SerializeCoordinate(p.z)], ' ')
  {
    match p
    case LocalPos(l, u, f) =>
      JoinThree(SerializeLocal(l, format), SerializeLocal(u, format), SerializeLocal(f, format), ' ');
      SerializeLocal(l, format) + " " + SerializeLocal(u, format) + " " + SerializeLocal(f, format)
    case WorldPos(x, y, z) =>
      JoinThree(SerializeCoordinate(x), SerializeCoordinate(y), SerializeCoordinate(z), ' ');
      SerializeCoordinate(x) + " " + SerializeCoordinate(y) + " " + SerializeCoordinate(z)
  }

  // ---------------------------------------------------------------- the matchers are the patterns

  lemma DigitsHaveNoSpace(t: string)
    requires IsDigits(t)
    ensures ' ' !in t && '.' !in t
  {
  }

  lemma LocalNumberHasNoSpace(t: string)
    requires IsLocalNumber(t)
    ensures ' ' !in t
  {
    var i := IndexOf(t, '.');
    if i < 0 {
      DigitsHaveNoSpace(t);
    } else {
      DigitsHaveNoSpace(t[..i]);
      DigitsHaveNoSpace(t[i + 1..]);
      assert t == t[..i] + [t[i]] + t[i + 1..];
    }
  }

  lemma TokenHasNoSpace(t: string)
    requires IsLocalToken(t) || IsWorldToken(t)
    ensures ' ' !in t
  {
    if IsLocalToken(t) {
      LocalNumberHasNoSpace(t[1..]);
      assert t == [t[0]] + t[1..];
    } else if IsDigits(t) {
      DigitsHaveNoSpace(t);
    } else {
      DigitsHaveNoSpace(t[1..]);
      assert t == [t[0]] + t[1..];
    }
  }

  /** Three tokens without spaces, joined by single spaces, split back into those tokens. */
  lemma SplitThree(a: string, b: string, c: string)
    requires ' ' !in a && ' ' !in b && ' ' !in c
    ensures Split(a + " " + b + " " + c, ' ') == [a, b, c]
  {
    JoinThree(a, b, c, ' ');
    SplitJoin([a, b, c], ' ');
  }

  /** A string the local matcher accepts is three local tokens joined by single spaces. */
  lemma LocalPatternSound(s: string)
    requires MatchesLocal(s)
    ensures var ts := Split(s, ' ');
            s == ts[0] + " " + ts[1] + " " + ts[2] && IsLocalToken(ts[0]) && IsLocalToken(ts[1]) && IsLocalToken(ts[2])
  {
    var ts := Split(s, ' ');
    JoinThree(ts[0], ts[1], ts[2], ' ');
    assert ts == [ts[0], ts[1], ts[2]];
  }

  /** Three local tokens joined by single spaces are accepted, with the tokens as the groups. */
  lemma LocalPatternComplete(a: string, b: string, c: string)
    requires IsLocalToken(a) && IsLocalToken(b) && IsLocalToken(c)
    ensures MatchesLocal(a + " " + b + " " + c)
    ensures Deserialize(a + " " + b + " " + c)
            == Ok(LocalPos(LocalNumberValue(a[1..]), LocalNumberValue(b[1..]), LocalNumberValue(c[1..])))
  {
    TokenHasNoSpace(a);
    TokenHasNoSpace(b);
    TokenHasNoSpace(c);
    SplitThree(a, b, c);
  }

  /** A string the world matcher accepts is three world tokens joined by single spaces. */
  lemma WorldPatternSound(s: string)
    requires MatchesWorld(s)
    ensures var ts := Split(s, ' ');
            s == ts[0] + " " + ts[1] + " " + ts[2] && IsWorldToken(ts[0]) && IsWorldToken(ts[1]) && IsWorldToken(ts[2])
  {
    var ts := Split(s, ' ');
    JoinThree(ts[0], ts[1], ts[2], ' ');
    assert ts == [ts[0], ts[1], ts[2]];
  }

  /** Three world tokens joined by single spaces are accepted and converted token by token. */
  lemma WorldPatternComplete(a: string, b: string, c: string)
    requires IsWorldToken(a) && IsWorldToken(b) && IsWorldToken(c)
    ensures MatchesWorld(a + " " + b + " " + c)
    ensures Deserialize(a + " " + b + " " + c) == DeserializeWorld([a, b, c])
  {
    TokenHasNoSpace(a);
    TokenHasNoSpace(b);
    TokenHasNoSpace(c);
    SplitThree(a, b, c);
    TokenKindsDisjoint(a);
  }

  // ---------------------------------------------------------------- round trips

  /** A coordinate with a non-negative value serializes to a world token that converts back to it. */
  lemma CoordinateRoundTrip(c: Coordinate)
    requires c.value >= 0
    ensures IsWorldToken(SerializeCoordinate(c))
    ensures DeserializeWorldToken(SerializeCoordinate(c)) == Ok(c)
  {
    var digits := NatToString(c.value as int);
    NatToStringValue(c.value as int);
    var t := SerializeCoordinate(c);
    if c.kind == Relative {
      assert t == "~" + digits && t[1..] == digits;
      assert WorldGroups(t) == (RelativeSymbol, digits);
    } else {
      assert t == digits;
      assert WorldGroups(t) == (AbsoluteSymbol, digits);
    }
    assert ParseInt(digits) == Ok(c.value);
  }

  /** Parsing a serialized world position whose three values are non-negative gives it back. */
  lemma WorldRoundTrip(p: Pos, format: real -> string)
    requires p.WorldPos? && p.x.value >= 0 && p.y.value >= 0 && p.z.value >= 0
    ensures Deserialize(Serialize(p, format)) == Ok(p)
  {
    CoordinateRoundTrip(p.x);
    CoordinateRoundTrip(p.y);
    CoordinateRoundTrip(p.z);
    WorldPatternComplete(SerializeCoordinate(p.x), SerializeCoordinate(p.y), SerializeCoordinate(p.z));
  }

  /** A negative value serializes with a `-`, and neither grammar lets that token through. */
  lemma NegativeTokenRejected(c: Coordinate)
    requires c.value < 0
    ensures ' ' !in SerializeCoordinate(c)
    ensures !IsWorldToken(SerializeCoordinate(c)) && !IsLocalToken(SerializeCoordinate(c))
  {
    var digits := NatToString(-(c.value as int));
    DigitsHaveNoSpace(digits);
    var t := SerializeCoordinate(c);
    if c.kind == Relative {
      assert t == "~-" + digits && t[1] == '-';
      assert t == ['~', '-'] + digits;
    } else {
      assert t == "-" + digits && t[0] == '-';
      assert t == ['-'] + digits;
    }
  }

  /** Serialized absolute and relative tokens never hold a space, whatever the sign. */
  lemma CoordinateTokenHasNoSpace(c: Coordinate)
    ensures ' ' !in SerializeCoordinate(c)
  {
    if c.value < 0 {
      NegativeTokenRejected(c);
    } else {
      CoordinateRoundTrip(c);
      TokenHasNoSpace(SerializeCoordinate(c));
    }
  }

  /** A world position with a negative value does not survive the round trip: the parse error names the text. */
  lemma NegativeWorldPosRejected(p: Pos, format: real -> string)
    requires p.WorldPos? && (p.x.value < 0 || p.y.value < 0 || p.z.value < 0)
    ensures Deserialize(Serialize(p, format)) == Err(ParseError(Serialize(p, format)))
  {
    var a, b, c := SerializeCoordinate(p.x), SerializeCoordinate(p.y), SerializeCoordinate(p.z);
    var s := Serialize(p, format);
    JoinThree(a, b, c, ' ');
    assert s == a + " " + b + " " + c;
    CoordinateTokenHasNoSpace(p.x);
    CoordinateTokenHasNoSpace(p.y);
    CoordinateTokenHasNoSpace(p.z);
    SplitThree(a, b, c);
    if p.x.value < 0 { NegativeTokenRejected(p.x); }
    else if p.y.value < 0 { NegativeTokenRejected(p.y); }
    else { NegativeTokenRejected(p.z); }
    assert !MatchesLocal(s) && !MatchesWorld(s);
  }

  /** The caller's double-to-text rule writes `v` as a `\d+(\.\d+)?` literal denoting `v` exactly. */
  ghost predicate FormatsFaithfully(format: real -> string, v: real) {
    IsLocalNumber(format(v)) && LocalNumberValue(format(v)) == v
  }

  /** A local position round-trips whenever the double-to-text rule writes its three offsets faithfully. */
  lemma LocalRoundTrip(p: Pos, format: real -> string)
    requires p.LocalPos?
    requires FormatsFaithfully(format, p.left) && FormatsFaithfully(format, p.up) && FormatsFaithfully(format, p.forwards)
    ensures Deserialize(Serialize(p, format)) == Ok(p)
  {
    var a, b, c := SerializeLocal(p.left, format), SerializeLocal(p.up, format), SerializeLocal(p.forwards, format);
    assert a[1..] == format(p.left);
    assert b[1..] == format(p.up);
    assert c[1..] == format(p.forwards);
    LocalPatternComplete(a, b, c);
  }

  // ---------------------------------------------------------------- exponent forms

  /** A token holding a character that is neither a digit nor `.` is not a `\d+(\.\d+)?`. */
  lemma ForeignCharRejected(t: string, k: nat)
    requires k < |t| && !IsDigit(t[k]) && t[k] != '.'
    ensures !IsLocalNumber(t)
  {
    var i := IndexOf(t, '.');
    if 0 <= i {
      if k < i {
        assert t[..i][k] == t[k];
      } else {
        assert t[i + 1..][k - i - 1] == t[k];
      }
    }
  }

  /** What `Double.toString` writes for 1e7, 1e-4, NaN and infinity is not a local number. */
  lemma JavaSpecialFormsRejected(t: string)
    requires t == "1.0E7" || t == "1.0E-4" || t == "NaN" || t == "Infinity"
    ensures !IsLocalNumber(t)
  {
    if t == "1.0E7" || t == "1.0E-4" {
      ForeignCharRejected(t, 3);
    } else {
      ForeignCharRejected(t, 0);
    }
  }

  /**
   * A local position is rejected when the double-to-text rule writes any of
   * its offsets in a form other than `\d+(\.\d+)?`, as `Double.toString`
   * does with an exponent for large and tiny magnitudes.
   */
  lemma NonPlainOffsetRejected(p: Pos, format: real -> string)
    requires p.LocalPos?
    requires ' ' !in format(p.left) && ' ' !in format(p.up) && ' ' !in format(p.forwards)
    requires !IsLocalNumber(format(p.left)) || !IsLocalNumber(format(p.up)) || !IsLocalNumber(format(p.forwards))
    ensures Deserialize(Serialize(p, format)) == Err(ParseError(Serialize(p, format)))
  {
    var a, b, c := SerializeLocal(p.left, format), SerializeLocal(p.up, format), SerializeLocal(p.forwards, format);
    assert a == ['^'] + format(p.left) && a[1..] == format(p.left);
    assert b == ['^'] + format(p.up) && b[1..] == format(p.up);
    assert c == ['^'] + format(p.forwards) && c[1..] == format(p.forwards);
    var s := Serialize(p, format);
    JoinThree(a, b, c, ' ');
    assert s == a + " " + b + " " + c;
    SplitThree(a, b, c);
    assert !IsWorldToken(a);
    assert !MatchesLocal(s) && !MatchesWorld(s);
  }

  /** A plain-decimal writer for whole non-negative offsets: the digits, then `.0`, never an exponent. */
  function PlainWhole(v: real): string {
    NatToString(if v >= 0.0 then v.Floor else 0) + ".0"
  }

  /** `PlainWhole` writes every whole non-negative offset as a local number denoting it. */
  lemma PlainWholeFaithful(v: real)
    requires v >= 0.0 && v == v.Floor as real
    ensures FormatsFaithfully(PlainWhole, v)
  {
    var n: nat := v.Floor;
    var whole, zero := NatToString(n), "0";
    NatToStringValue(n);
    assert IsDigits(zero) && DigitsValue(zero) == 0;
    assert DecimalValue(whole, zero) == v;
    FractionalLocalNumber(whole, zero);
    assert PlainWhole(v) == whole + "." + zero;
  }

  /** With a plain-decimal writer, local positions with whole non-negative offsets, 1e7 included, round-trip. */
  lemma PlainWholeRoundTrip(p: Pos)
    requires p.LocalPos?
    requires p.left >= 0.0 && p.left == p.left.Floor as real
    requires p.up >= 0.0 && p.up == p.up.Floor as real
    requires p.forwards >= 0.0 && p.forwards == p.forwards.Floor as real
    ensures Deserialize(Serialize(p, PlainWhole)) == Ok(p)
  {
    PlainWholeFaithful(p.left);
    PlainWholeFaithful(p.up);
    PlainWholeFaithful(p.forwards);
    LocalRoundTrip(p, PlainWhole);
  }

  // ---------------------------------------------------------------- worked examples

  /** `~1 2 ~3` is a world position: relative 1, absolute 2, relative 3; and it serializes back to that text. */
  lemma WorldExample(format: real -> string)
    ensures Deserialize("~1 2 ~3") == Ok(WorldPos(Coordinate(1, Relative), Coordinate(2, Absolute), Coordinate(3, Relative)))
    ensures Serialize(WorldPos(Coordinate(1, Relative), Coordinate(2, Absolute), Coordinate(3, Relative)), format) == "~1 2 ~3"
  {
    var p := WorldPos(Coordinate(1, Relative), Coordinate(2, Absolute), Coordinate(3, Relative));
    assert Serialize(p, format) == "~1 2 ~3";
    WorldRoundTrip(p, format);
  }

  /** Two tokens match neither grammar. */
  lemma TwoTokensRejected()
    ensures Deserialize("1 2") == Err(ParseError("1 2"))
  {
    SplitJoin(["1", "2"], ' ');
    assert Join(["1", "2"], ' ') == "1 2";
  }

  /** A `^` followed by a `-` is neither a local nor a world token. */
  lemma SignedTokenRejected(t: string)
    requires |t| >= 2 && t[0] == '^' && t[1] == '-'
    ensures !IsLocalToken(t) && !IsWorldToken(t)
  {
    var n := t[1..];
    assert !IsDigit(n[0]) && !IsDigit(t[0]);
    var i := IndexOf(n, '.');
    if i < 0 {
      assert !IsDigits(n);
    } else {
      assert i == 0 || n[..i][0] == n[0];
      assert !IsDigits(n[..i]);
    }
    assert !IsLocalNumber(n);
  }

  /** A local-looking string with a signed offset matches neither grammar. */
  lemma SignedLocalStringRejected(s: string, a: string, b: string, c: string)
    requires s == a + " " + b + " " + c
    requires ' ' !in a && ' ' !in b && ' ' !in c
    requires |c| >= 2 && c[0] == '^' && c[1] == '-'
    requires |a| >= 1 && a[0] == '^'
    ensures Deserialize(s) == Err(ParseError(s))
  {
    SplitThree(a, b, c);
    SignedTokenRejected(c);
    assert !IsWorldToken(a);
  }

  /** The local grammar has no sign: `^1.5 ^0 ^-2.25` is rejected. */
  lemma SignedLocalRejected()
    ensures Deserialize("^1.5 ^0 ^-2.25") == Err(ParseError("^1.5 ^0 ^-2.25"))
  {
    SignedLocalStringRejected("^1.5 ^0 ^-2.25", "^1.5", "^0", "^-2.25");
  }

  /** Digits alone are a local number denoting their decimal value. */
  lemma WholeLocalNumber(p: string)
    requires IsDigits(p)
    ensures IsLocalNumber(p) && LocalNumberValue(p) == DigitsValue(p) as real
  {
    DigitsHaveNoSpace(p);
  }

  /** Digits, a point and digits are a local number denoting the decimal fraction. */
  lemma FractionalLocalNumber(p: string, q: string)
    requires IsDigits(p) && IsDigits(q)
    ensures IsLocalNumber(p + "." + q)
    ensures LocalNumberValue(p + "." + q) == DecimalValue(p, q)
  {
    var t := p + "." + q;
    DigitsHaveNoSpace(p);
    assert t[..|p|] == p;
    assert t[|p|] == '.';
    IndexOfIsFirst(t, '.', |p|);
    assert t[|p| + 1..] == q;
  }

  /** A world string whose first value exceeds `Integer.MAX_VALUE` fails on that value. */
  lemma FirstCoordinateOverflows(s: string, a: string, b: string, c: string)
    requires s == a + " " + b + " " + c
    requires IsDigits(a) && DigitsValue(a) > Int32Max
    requires IsWorldToken(b) && IsWorldToken(c)
    ensures Deserialize(s) == Err(NumberFormatError(a))
  {
    WorldPatternComplete(a, b, c);
  }

  /** Only the leftmost overflowing coordinate is reported: a fitting first and an overflowing second name the second. */
  lemma SecondCoordinateOverflows(s: string, a: string, b: string, c: string)
    requires s == a + " " + b + " " + c
    requires IsWorldToken(a) && WorldTokenFits(a)
    requires IsDigits(b) && DigitsValue(b) > Int32Max
    requires IsWorldToken(c)
    ensures Deserialize(s) == Err(NumberFormatError(b))
  {
    WorldPatternComplete(a, b, c);
  }

  /** The digits `007` denote 7. */
  lemma LeadingZerosValue(d: string)
    requires d == "007"
    ensures IsDigits(d) && DigitsValue(d) == 7
  {
    var e: string := [];
    DigitsValueSnoc(e, '0'); e := e + ['0'];
    DigitsValueSnoc(e, '0'); e := e + ['0'];
    DigitsValueSnoc(e, '7'); e := e + ['7'];
    assert e == d;
  }

  /** `Integer.parseInt` ignores leading zeros: `~007 0 1` is relative 7, absolute 0, absolute 1. */
  lemma LeadingZerosExample(s: string)
    requires s == "~007 0 1"
    ensures Deserialize(s) == Ok(WorldPos(Coordinate(7, Relative), Coordinate(0, Absolute), Coordinate(1, Absolute)))
  {
    var a, b, c := s[..4], s[5..6], s[7..];
    assert s == a + " " + b + " " + c;
    LeadingZerosValue(a[1..]);
    assert IsWorldToken(a) && WorldGroups(a) == (RelativeSymbol, a[1..]);
    assert IsWorldToken(b) && WorldGroups(b) == (AbsoluteSymbol, b) && DigitsValue(b) == 0;
    assert IsWorldToken(c) && WorldGroups(c) == (AbsoluteSymbol, c) && DigitsValue(c) == 1;
    WorldPatternComplete(a, b, c);
  }

  /** The digits of `Integer.MAX_VALUE + 1` denote it. */
  lemma MaxIntPlusOneValue()
    ensures DigitsValue("2147483648") == Int32Max + 1
  {
    var s: string := [];
    DigitsValueSnoc(s, '2'); s := s + ['2']; assert DigitsValue(s) == 2;
    DigitsValueSnoc(s, '1'); s := s + ['1']; assert DigitsValue(s) == 21;
    DigitsValueSnoc(s, '4'); s := s + ['4']; assert DigitsValue(s) == 214;
    DigitsValueSnoc(s, '7'); s := s + ['7']; assert DigitsValue(s) == 2147;
    DigitsValueSnoc(s, '4'); s := s + ['4']; assert DigitsValue(s) == 21474;
    DigitsValueSnoc(s, '8'); s := s + ['8']; assert DigitsValue(s) == 214748;
    DigitsValueSnoc(s, '3'); s := s + ['3']; assert DigitsValue(s) == 2147483;
    DigitsValueSnoc(s, '6'); s := s + ['6']; assert DigitsValue(s) == 21474836;
    DigitsValueSnoc(s, '4'); s := s + ['4']; assert DigitsValue(s) == 214748364;
    DigitsValueSnoc(s, '8'); s := s + ['8']; assert DigitsValue(s) == 2147483648;
    assert s == "2147483648";
  }

  /** `Integer.parseInt` rejects 2147483648, so `2147483648 0 0` fails with a number-format error. */
  lemma OverflowExample(s: string)
    requires s == "2147483648 0 0"
    ensures Deserialize(s) == Err(NumberFormatError("2147483648"))
  {
    MaxIntPlusOneValue();
    FirstCoordinateOverflows(s, "2147483648", "0", "0");
  }
}
