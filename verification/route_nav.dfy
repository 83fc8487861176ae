/**
 * Turn-by-turn instructions along a route (rust-core/src/route_nav.rs):
 * one instruction per waypoint, Start first and Arrive last, and for every
 * waypoint in between the turn classified from the change of bearing,
 * normalised into [-180, 180] degrees.
 *
 * The initial bearing and the great-circle distance between two points are
 * floating-point numerics; they are parameters here and the proofs rely on
 * nothing about them.
 */
module RouteNav {
  import opened Wrappers
  import opened Gpx
  import Nav

  /** Initial bearing in degrees from the first point to the second. */
  type Bearing = (Point, Point) -> real

  /** Turn direction categories. */
  datatype Turn =
    | Start
    | Straight
    | SlightLeft
    | Left
    | SharpLeft
    | SlightRight
    | Right
    | SharpRight
    | UTurn
    | Arrive

  predicate IsRightward(t: Turn)
  {
    t == SlightRight || t == Right || t == SharpRight
  }

  predicate IsLeftward(t: Turn)
  {
    t == SlightLeft || t == Left || t == SharpLeft
  }

  // ---------------------------------------------------------------------
  // Classification
  // ---------------------------------------------------------------------

  function Abs(x: real): real
  {
    if x < 0.0 then -x else x
  }

  /**
   * Classify a relative bearing (positive to the right) by its magnitude:
   * above 170 a U-turn, above 120 sharp, above 60 plain, above 20 slight,
   * otherwise straight on.
   */
  function ClassifyTurn(angle: real): (t: Turn)
    ensures t != Start && t != Arrive
    ensures IsRightward(t) ==> 0.0 < angle
    ensures IsLeftward(t) ==> angle < 0.0
  {
    var absAngle := Abs(angle);
    if absAngle > 170.0 then UTurn
    else if absAngle > 120.0 then (if angle > 0.0 then SharpRight else SharpLeft)
    else if absAngle > 60.0 then (if angle > 0.0 then Right else Left)
    else if absAngle > 20.0 then (if angle > 0.0 then SlightRight else SlightLeft)
    else Straight
  }

  /** Each magnitude band yields its own kind of turn, and only that band does. */
  lemma ClassifyTurnBands(angle: real)
    ensures ClassifyTurn(angle) == UTurn <==> Abs(angle) > 170.0
    ensures (ClassifyTurn(angle) == SharpLeft || ClassifyTurn(angle) == SharpRight) <==> 120.0 < Abs(angle) <= 170.0
    ensures (ClassifyTurn(angle) == Left || ClassifyTurn(angle) == Right) <==> 60.0 < Abs(angle) <= 120.0
    ensures (ClassifyTurn(angle) == SlightLeft || ClassifyTurn(angle) == SlightRight) <==> 20.0 < Abs(angle) <= 60.0
    ensures ClassifyTurn(angle) == Straight <==> Abs(angle) <= 20.0
  {
  }

  /** Outside the straight-on and U-turn bands, the side of the turn is the sign of the angle. */
  lemma ClassifyTurnSide(angle: real)
    requires 20.0 < Abs(angle) <= 170.0
    ensures IsRightward(ClassifyTurn(angle)) <==> 0.0 < angle
    ensures IsLeftward(ClassifyTurn(angle)) <==> angle < 0.0
  {
  }

  /** The same turn to the other side; direction-less turns are their own mirror. */
  function Mirror(t: Turn): (m: Turn)
    ensures IsRightward(t) <==> IsLeftward(m)
    ensures IsLeftward(t) <==> IsRightward(m)
  {
    match t
    case SlightLeft => SlightRight
    case Left => Right
    case SharpLeft => SharpRight
    case SlightRight => SlightLeft
    case Right => Left
    case SharpRight => SharpLeft
    case _ => t
  }

  /** Turning by the opposite angle is the mirrored turn. */
  lemma ClassifyTurnMirror(angle: real)
    ensures ClassifyTurn(-angle) == Mirror(ClassifyTurn(angle))
  {
  }

  // ---------------------------------------------------------------------
  // Angle normalisation
  // ---------------------------------------------------------------------

  /** The first loop: subtract full turns while the angle exceeds 180. */
  function ReduceDown(angle: real): (r: real)
    ensures r <= 180.0 && r <= angle
    ensures angle <= 180.0 ==> r == angle
    decreases if angle > 180.0 then (angle - 180.0).Floor + 1 else 0
  {
    if angle > 180.0 then ReduceDown(angle - 360.0) else angle
  }

  /** The second loop: add full turns while the angle is below -180. */
  function RaiseUp(angle: real): (r: real)
    ensures -180.0 <= r && angle <= r
    ensures -180.0 <= angle ==> r == angle
    ensures angle <= 180.0 ==> r <= 180.0
    decreases if angle < -180.0 then (-180.0 - angle).Floor + 1 else 0
  {
    if angle < -180.0 then RaiseUp(angle + 360.0) else angle
  }

  /** The relative angle after both loops. */
  function Normalized(raw: real): (r: real)
    ensures -180.0 <= r <= 180.0
    ensures -180.0 <= raw <= 180.0 ==> r == raw
  {
    RaiseUp(ReduceDown(raw))
  }

  /** `x` and `y` differ by a whole number of full turns. */
  predicate SameDirection(x: real, y: real)
  {
    ((x - y) / 360.0).Floor as real == (x - y) / 360.0
  }

  lemma {:induction false} ReduceDownFacts(angle: real)
    ensures ReduceDown(angle) <= 180.0
    ensures angle <= 180.0 ==> ReduceDown(angle) == angle
    ensures angle > 180.0 ==> -180.0 < ReduceDown(angle)
    ensures SameDirection(ReduceDown(angle), angle)
    decreases if angle > 180.0 then (angle - 180.0).Floor + 1 else 0
  {
    if angle > 180.0 {
      ReduceDownFacts(angle - 360.0);
      ShiftSameDirection(ReduceDown(angle - 360.0), angle - 360.0, -1);
    }
  }

  lemma {:induction false} RaiseUpFacts(angle: real)
    ensures -180.0 <= RaiseUp(angle)
    ensures -180.0 <= angle ==> RaiseUp(angle) == angle
    ensures angle <= 180.0 ==> RaiseUp(angle) <= 180.0
    ensures SameDirection(RaiseUp(angle), angle)
    decreases if angle < -180.0 then (-180.0 - angle).Floor + 1 else 0
  {
    if angle < -180.0 {
      RaiseUpFacts(angle + 360.0);
      ShiftSameDirection(RaiseUp(angle + 360.0), angle + 360.0, 1);
    }
  }

  /** Moving the second angle by k full turns keeps the two in the same direction. */
  lemma ShiftSameDirection(x: real, y: real, k: int)
    requires SameDirection(x, y)
    ensures SameDirection(x, y + 360.0 * k as real)
  {
    var q := (x - y) / 360.0;
    assert (x - (y + 360.0 * k as real)) / 360.0 == q - k as real;
    assert (q - k as real).Floor == q.Floor - k;
  }

  /** The normalised angle lies in [-180, 180] and points the same way as the raw one. */
  lemma NormalizedRange(raw: real)
    ensures -180.0 <= Normalized(raw) <= 180.0
    ensures SameDirection(Normalized(raw), raw)
  {
    ReduceDownFacts(raw);
    RaiseUpFacts(ReduceDown(raw));
    SameDirectionTransitive(Normalized(raw), ReduceDown(raw), raw);
  }

  lemma SameDirectionTransitive(x: real, y: real, z: real)
    requires SameDirection(x, y) && SameDirection(y, z)
    ensures SameDirection(x, z)
  {
    var p := (x - y) / 360.0;
    var q := (y - z) / 360.0;
    assert (x - z) / 360.0 == p + q;
    assert p == p.Floor as real && q == q.Floor as real;
    assert (p + q).Floor == p.Floor + q.Floor;
  }

  /** An angle already in [-180, 180] is left alone. */
  lemma NormalizedIdentity(angle: real)
    requires -180.0 <= angle <= 180.0
    ensures Normalized(angle) == angle
  {
    ReduceDownFacts(angle);
    RaiseUpFacts(angle);
  }

  /**
   * Two angles in [-180, 180] pointing the same way are equal, except for
   * -180 and 180 themselves: the normalised angle is the one representative
   * of the raw direction.
   */
  lemma SameDirectionInRange(x: real, y: real)
    requires -180.0 <= x <= 180.0 && -180.0 <= y <= 180.0 && SameDirection(x, y)
    ensures x == y || (x == -180.0 && y == 180.0) || (x == 180.0 && y == -180.0)
  {
    var q := (x - y) / 360.0;
    assert -1.0 <= q <= 1.0;
    assert q.Floor == -1 || q.Floor == 0 || q.Floor == 1;
  }

  /**
   * The two normalisation loops of the source: subtract 360 while above
   * 180, then add 360 while below -180.
   */
  method NormalizeAngle(raw: real) returns (angle: real)
    ensures angle == Normalized(raw)
    ensures -180.0 <= angle <= 180.0
  {
    angle := raw;
    while angle > 180.0
      invariant ReduceDown(angle) == ReduceDown(raw)
      decreases if angle > 180.0 then (angle - 180.0).Floor + 1 else 0
    {
      angle := angle - 360.0;
    }
    ghost var afterFirst := angle;
    while angle < -180.0
      invariant RaiseUp(angle) == RaiseUp(afterFirst)
      decreases if angle < -180.0 then (-180.0 - angle).Floor + 1 else 0
    {
      angle := angle + 360.0;
    }
    NormalizedRange(raw);
  }

  /** The turn at `b` when arriving from `a` and leaving towards `c`. */
  function TurnAt(a: Point, b: Point, c: Point, bearing: Bearing): (t: Turn)
    ensures t != Start && t != Arrive
  {
    ClassifyTurn(Normalized(bearing(b, c) - bearing(a, b)))
  }

  /** Compute the turn at `b`: the change of bearing, normalised, then classified. */
  method ComputeTurn(a: Point, b: Point, c: Point, bearing: Bearing) returns (t: Turn)
    ensures t == TurnAt(a, b, c, bearing)
    ensures t != Start && t != Arrive
  {
    var angle := bearing(b, c) - bearing(a, b);
    angle := NormalizeAngle(angle);
    t := ClassifyTurn(angle);
  }

  /**
   * A turn to the right means the bearing changes by a positive angle once
   * normalised, and a turn to the left by a negative one.
   */
  lemma TurnAtSide(a: Point, b: Point, c: Point, bearing: Bearing)
    ensures IsRightward(TurnAt(a, b, c, bearing)) ==> 0.0 < Normalized(bearing(b, c) - bearing(a, b)) <= 170.0
    ensures IsLeftward(TurnAt(a, b, c, bearing)) ==> -170.0 <= Normalized(bearing(b, c) - bearing(a, b)) < 0.0
  {
    ClassifyTurnBands(Normalized(bearing(b, c) - bearing(a, b)));
  }

  /** Going the same way through `b` as before: no bearing change is straight on. */
  lemma SameBearingIsStraight(a: Point, b: Point, c: Point, bearing: Bearing)
    requires bearing(a, b) == bearing(b, c)
    ensures TurnAt(a, b, c, bearing) == Straight
  {
    NormalizedIdentity(0.0);
  }

  // ---------------------------------------------------------------------
  // Text
  // ---------------------------------------------------------------------

  /** The phrase for each turn. */
  function TurnText(t: Turn): string
  {
    match t
    case Start => "start navigation"
    case Straight => "continue straight"
    case SlightLeft => "keep slightly left"
    case Left => "turn left"
    case SharpLeft => "turn sharp left"
    case SlightRight => "keep slightly right"
    case Right => "turn right"
    case SharpRight => "turn sharp right"
    case UTurn => "make a U-turn"
    case Arrive => "arrive at destination"
  }

  /** Reading a phrase back: the turn it names, if any. */
  function TurnOfText(s: string): Option<Turn>
  {
    if s == "start navigation" then Some(Start)
    else if s == "continue straight" then Some(Straight)
    else if s == "keep slightly left" then Some(SlightLeft)
    else if s == "turn left" then Some(Left)
    else if s == "turn sharp left" then Some(SharpLeft)
    else if s == "keep slightly right" then Some(SlightRight)
    else if s == "turn right" then Some(Right)
    else if s == "turn sharp right" then Some(SharpRight)
    else if s == "make a U-turn" then Some(UTurn)
    else if s == "arrive at destination" then Some(Arrive)
    else None
  }

  /** Every phrase reads back as its own turn. */
  lemma TurnTextReadsBack(t: Turn)
    ensures TurnOfText(TurnText(t)) == Some(t)
  {
  }

  /** Different turns have different phrases, so the phrase tells the turn. */
  lemma TurnTextInjective(t1: Turn, t2: Turn)
    requires TurnText(t1) == TurnText(t2)
    ensures t1 == t2
  {
  }

  /** `(x).round()`: the nearest integer, halves rounded away from zero. */
  function RoundHalfAwayFromZero(x: real): (r: int)
    ensures 0.0 <= x ==> x - 0.5 < r as real <= x + 0.5
    ensures x < 0.0 ==> x - 0.5 <= r as real < x + 0.5
  {
    if 0.0 <= x then (x + 0.5).Floor else -((-x + 0.5).Floor)
  }

  /** A formatted distance: whole metres, or kilometres shown to one decimal. */
  datatype DistanceText = Meters(m: int) | Kilometers(km: real)

  /**
   * Below 1000 m the distance is rounded to the nearest 10 m; from 1000 m
   * on it is given in kilometres.
   */
  function FormatDistance(meters: real): (d: DistanceText)
    ensures 1000.0 <= meters <==> d.Kilometers?
    ensures d.Kilometers? ==> d.km * 1000.0 == meters
    ensures d.Meters? ==> d.m % 10 == 0
    ensures d.Meters? ==> meters - 5.0 <= d.m as real <= meters + 5.0
    ensures d.Meters? && 0.0 <= meters ==> 0 <= d.m <= 1000
  {
    if meters >= 1000.0 then Kilometers(meters / 1000.0)
    else Meters(RoundHalfAwayFromZero(meters / 10.0) * 10)
  }

  /** From 995 m up to 1000 m the meters branch reports a full 1000 m. */
  lemma JustUnderAKilometre(meters: real)
    requires 995.0 <= meters < 1000.0
    ensures FormatDistance(meters) == Meters(1000)
  {
  }

  function DigitChar(d: nat): (c: char)
    requires d < 10
    ensures c as int - '0' as int == d
  {
    ('0' as int + d) as char
  }

  /** Decimal digits of a natural number, without leading zeros. */
  function NatToString(n: nat): (s: string)
    ensures s != [] && (forall i :: 0 <= i < |s| ==> '0' <= s[i] <= '9')
    ensures s[0] == '0' ==> n == 0
    decreases n
  {
    if n < 10 then [DigitChar(n)] else NatToString(n / 10) + [DigitChar(n % 10)]
  }

  /** The value of a string of decimal digits. */
  function DigitsValue(s: string): int
    decreases |s|
  {
    if s == [] then 0 else 10 * DigitsValue(s[..|s| - 1]) + (s[|s| - 1] as int - '0' as int)
  }

  /** Reading the digits back gives the number. */
  lemma {:induction false} NatToStringRoundTrip(n: nat)
    ensures DigitsValue(NatToString(n)) == n
    decreases n
  {
    if 10 <= n {
      NatToStringRoundTrip(n / 10);
      var s := NatToString(n);
      assert s == NatToString(n / 10) + [DigitChar(n % 10)];
      assert s[..|s| - 1] == NatToString(n / 10);
      assert DigitsValue(s) == 10 * (n / 10) + n % 10;
    }
  }

  /** `{}` on an `i64`: an optional minus sign, then the digits. */
  function IntToString(i: int): (s: string)
    ensures s != [] && '0' <= s[|s| - 1] <= '9'
    ensures s[0] == '-' <==> i < 0
  {
    if i < 0 then "-" + NatToString(-i) else NatToString(i)
  }

  /**
   * Rounding to the nearest integer with an exact tie going to the even
   * neighbour, as fixed-precision float formatting rounds.
   */
  function RoundHalfEven(x: real): (r: int)
    ensures x - 0.5 <= r as real <= x + 0.5
    ensures x - 0.5 < r as real < x + 0.5 || r % 2 == 0
  {
    var f := x.Floor;
    var frac := x - f as real;
    if frac < 0.5 then f
    else if 0.5 < frac then f + 1
    else if f % 2 == 0 then f
    else f + 1
  }

  /** The rounded tenths of a non-negative number written as "<whole>.<digit>". */
  function TenthsText(x: real): string
    requires 0.0 <= x
  {
    var tenths := RoundHalfEven(x * 10.0);
    NatToString(tenths / 10) + "." + [DigitChar(tenths % 10)]
  }

  /** `{:.1}`: a minus sign for a negative number, then its magnitude to one decimal. */
  function OneDecimal(x: real): string
  {
    if x < 0.0 then "-" + TenthsText(-x) else TenthsText(x)
  }

  /**
   * The one-decimal text of a non-negative number reads back as a number of
   * tenths within half a tenth of it: whole part, a point, one digit.
   */
  lemma OneDecimalReadsBack(x: real)
    requires 0.0 <= x
    ensures var s := OneDecimal(x);
      3 <= |s| && s[|s| - 2] == '.' &&
      var tenths := 10 * DigitsValue(s[..|s| - 2]) + (s[|s| - 1] as int - '0' as int);
      x * 10.0 - 0.5 <= tenths as real <= x * 10.0 + 0.5
  {
    var tenths := RoundHalfEven(x * 10.0);
    var whole := NatToString(tenths / 10);
    var s := OneDecimal(x);
    assert s == whole + ['.', DigitChar(tenths % 10)];
    assert s[..|s| - 2] == whole;
    NatToStringRoundTrip(tenths / 10);
  }

  /** The text of a formatted distance: "<n> m", or "<x.y> km". */
  function DistanceString(d: DistanceText): (s: string)
    ensures 3 <= |s|
    ensures d.Meters? <==> s[|s| - 2..] == " m"
    ensures d.Kilometers? <==> s[|s| - 3..] == " km"
  {
    match d
    case Meters(m) =>
      var s := IntToString(m) + " m";
      assert s[|s| - 2..] == " m" && s[|s| - 3..][0] != ' ';
      s
    case Kilometers(km) =>
      var s := OneDecimal(km) + " km";
      assert s[|s| - 3..] == " km" && s[|s| - 2..][0] != ' ';
      s
  }

  /** 150 m are shown as "150 m". */
  lemma DistanceStringMeters()
    ensures DistanceString(FormatDistance(150.0)) == "150 m"
  {
    assert FormatDistance(150.0) == Meters(150);
    assert NatToString(15) == "15";
    assert IntToString(150) == "150";
  }

  /** 5 m round up to "10 m". */
  lemma DistanceStringRoundsUp()
    ensures DistanceString(FormatDistance(5.0)) == "10 m"
  {
    assert FormatDistance(5.0) == Meters(10);
    assert NatToString(1) == "1";
    assert IntToString(10) == "10";
  }

  /** 2500 m are shown as "2.5 km". */
  lemma DistanceStringKilometres()
    ensures DistanceString(FormatDistance(2500.0)) == "2.5 km"
  {
    assert FormatDistance(2500.0) == Kilometers(2.5);
    assert RoundHalfEven(25.0) == 25;
    assert NatToString(2) == "2";
    assert OneDecimal(2.5) == "2.5";
  }

  // ---------------------------------------------------------------------
  // Instructions
  // ---------------------------------------------------------------------

  /**
   * The text of an instruction, kept as the arguments of its `format!`:
   * "Start navigation", or "In <distance>, <phrase>".
   */
  datatype Phrase = StartNavigation | InDistance(distance: DistanceText, action: string)

  /** The string a phrase renders to. */
  function PhraseText(p: Phrase): (s: string)
    ensures p.StartNavigation? <==> s == "Start navigation"
    ensures p.InDistance? ==> 3 + |p.action| <= |s| && s[..3] == "In " && s[|s| - |p.action|..] == p.action
  {
    match p
    case StartNavigation => "Start navigation"
    case InDistance(d, action) =>
      var s := "In " + DistanceString(d) + ", " + action;
      assert s[..3] == "In " && s[|s| - |action|..] == action && s[0] != "Start navigation"[0];
      s
  }

  /** A single turn-by-turn instruction. */
  datatype Instruction = Instruction(waypointIndex: nat, distanceM: real, turn: Turn, text: Phrase)

  /** The phrase of an instruction after the start: its distance formatted, and its turn. */
  function InText(dist: real, turn: Turn): Phrase
  {
    InDistance(FormatDistance(dist), TurnText(turn))
  }

  /** The instruction for waypoint i of a route of at least two points. */
  function InstructionAt(points: seq<Point>, i: nat, h: Nav.Metric, bearing: Bearing): (ins: Instruction)
    requires 2 <= |points| && i < |points|
    ensures ins.waypointIndex == i
    ensures ins.turn == Start <==> i == 0
    ensures ins.turn == Arrive <==> i == |points| - 1
    ensures i == 0 ==> ins.distanceM == 0.0 && ins.text == StartNavigation
    ensures 0 < i ==> ins.distanceM == h(points[i - 1], points[i])
    ensures 0 < i < |points| - 1 ==> ins.turn == TurnAt(points[i - 1], points[i], points[i + 1], bearing)
  {
    if i == 0 then
      Instruction(0, 0.0, Start, StartNavigation)
    else
      var dist := h(points[i - 1], points[i]);
      var turn := if i == |points| - 1 then Arrive else TurnAt(points[i - 1], points[i], points[i + 1], bearing);
      Instruction(i, dist, turn, InText(dist, turn))
  }

  /** An instruction after the start, field by field. */
  lemma InstructionAfterStart(points: seq<Point>, i: nat, h: Nav.Metric, bearing: Bearing)
    requires 2 <= |points| && 0 < i < |points|
    ensures var dist := h(points[i - 1], points[i]);
      var turn := if i == |points| - 1 then Arrive else TurnAt(points[i - 1], points[i], points[i + 1], bearing);
      InstructionAt(points, i, h, bearing) == Instruction(i, dist, turn, InText(dist, turn))
  {
  }

  /**
   * Every instruction's text agrees with it: only the start reads "Start
   * navigation", and any other reads "In <its distance>, <the phrase of its
   * turn>", so that the turn can be read back from the text.
   */
  lemma InstructionTextMatches(points: seq<Point>, i: nat, h: Nav.Metric, bearing: Bearing, t: Turn)
    requires 2 <= |points| && i < |points|
    ensures var ins := InstructionAt(points, i, h, bearing);
      (PhraseText(ins.text) == "Start navigation" <==> i == 0) &&
      (0 < i ==>
        (PhraseText(ins.text) == "In " + DistanceString(FormatDistance(ins.distanceM)) + ", " + TurnText(t) <==> ins.turn == t))
  {
    var ins := InstructionAt(points, i, h, bearing);
    if 0 < i {
      var prefix := "In " + DistanceString(FormatDistance(ins.distanceM)) + ", ";
      assert PhraseText(ins.text) == prefix + TurnText(ins.turn);
      assert PhraseText(ins.text)[0] == 'I';
      if PhraseText(ins.text) == prefix + TurnText(t) {
        assert (prefix + TurnText(ins.turn))[|prefix|..] == TurnText(ins.turn);
        assert (prefix + TurnText(t))[|prefix|..] == TurnText(t);
        TurnTextInjective(ins.turn, t);
      }
    }
  }

  /** The values of `f` at 0 .. n-1, in order. */
  function Build<T>(n: nat, f: nat --> T): (r: seq<T>)
    requires forall i :: 0 <= i < n ==> f.requires(i)
    ensures |r| == n
    decreases n
  {
    if n == 0 then [] else Build(n - 1, f) + [f(n - 1)]
  }

  /** Position i of the built sequence holds f(i). */
  lemma {:induction false} BuildAt<T>(n: nat, f: nat --> T, i: nat)
    requires forall k :: 0 <= k < n ==> f.requires(k)
    requires i < n
    ensures Build(n, f)[i] == f(i)
    decreases n
  {
    if i < n - 1 {
      BuildAt(n - 1, f, i);
    }
  }

  /** The instruction for each waypoint of a route of at least two points. */
  function InstructionFor(points: seq<Point>, h: Nav.Metric, bearing: Bearing): (f: nat --> Instruction)
    requires 2 <= |points|
    ensures forall i :: 0 <= i < |points| ==> f.requires(i) && f(i) == InstructionAt(points, i, h, bearing)
  {
    (i: nat) requires i < |points| => InstructionAt(points, i, h, bearing)
  }

  /** The instructions for waypoints 0 .. n-1, in order. */
  function InstructionsUpTo(points: seq<Point>, n: nat, h: Nav.Metric, bearing: Bearing): (r: seq<Instruction>)
    requires 2 <= |points| && n <= |points|
    ensures |r| == n
    decreases n
  {
    if n == 0 then [] else InstructionsUpTo(points, n - 1, h, bearing) + [InstructionAt(points, n - 1, h, bearing)]
  }

  /** The instructions for the whole route, in order. */
  function Instructions(points: seq<Point>, h: Nav.Metric, bearing: Bearing): (r: seq<Instruction>)
    ensures |points| < 2 ==> r == []
    ensures 2 <= |points| ==> |r| == |points|
  {
    if |points| < 2 then [] else InstructionsUpTo(points, |points|, h, bearing)
  }

  /** Building the instructions one waypoint at a time is tabulating them. */
  lemma {:induction false} InstructionsUpToIsBuild(points: seq<Point>, n: nat, h: Nav.Metric, bearing: Bearing)
    requires 2 <= |points| && n <= |points|
    ensures InstructionsUpTo(points, n, h, bearing) == Build(n, InstructionFor(points, h, bearing))
    decreases n
  {
    if n > 0 {
      InstructionsUpToIsBuild(points, n - 1, h, bearing);
    }
  }


  /** Instruction i of the whole list is the instruction for waypoint i. */
  lemma InstructionOf(points: seq<Point>, h: Nav.Metric, bearing: Bearing, i: nat)
    requires 2 <= |points| && i < |points|
    ensures |Instructions(points, h, bearing)| == |points|
    ensures Instructions(points, h, bearing)[i] == InstructionAt(points, i, h, bearing)
  {
    InstructionsUpToIsBuild(points, |points|, h, bearing);
    BuildAt(|points|, InstructionFor(points, h, bearing), i);
  }

  /**
   * The start comes first with distance 0, the arrival last, and every
   * waypoint in between carries the turn classified there, the distance
   * from the previous waypoint, and its own index.
   */
  lemma InstructionsShape(points: seq<Point>, h: Nav.Metric, bearing: Bearing)
    requires 2 <= |points|
    ensures var r := Instructions(points, h, bearing);
      r[0].turn == Start && r[0].distanceM == 0.0 && r[0].text == StartNavigation &&
      r[|r| - 1].turn == Arrive &&
      (forall i :: 0 <= i < |r| ==> r[i].waypointIndex == i) &&
      (forall i :: 0 < i < |r| ==> r[i].distanceM == h(points[i - 1], points[i])) &&
      (forall i :: 0 < i < |r| - 1 ==> r[i].turn == TurnAt(points[i - 1], points[i], points[i + 1], bearing))
  {
    var r := Instructions(points, h, bearing);
    InstructionOf(points, h, bearing, 0);
    InstructionOf(points, h, bearing, |points| - 1);
    forall i | 0 <= i < |r|
      ensures r[i].waypointIndex == i
      ensures 0 < i ==> r[i].distanceM == h(points[i - 1], points[i])
      ensures 0 < i < |r| - 1 ==> r[i].turn == TurnAt(points[i - 1], points[i], points[i + 1], bearing)
    {
      InstructionOf(points, h, bearing, i);
    }
  }


  /**
   * The instruction for a waypoint after the start: the distance from the
   * previous waypoint, and the turn there (Arrive at the last waypoint).
   */
  method StepInstruction(points: seq<Point>, i: nat, h: Nav.Metric, bearing: Bearing) returns (ins: Instruction)
    requires 2 <= |points| && 0 < i < |points|
    ensures ins == InstructionAt(points, i, h, bearing)
  {
    var dist := h(points[i - 1], points[i]);
    var turn := Arrive;
    if i < |points| - 1 {
      turn := ComputeTurn(points[i - 1], points[i], points[i + 1], bearing);
    }
    ins := Instruction(i, dist, turn, InText(dist, turn));
    InstructionAfterStart(points, i, h, bearing);
  }

  /**
   * The source's loop: the start instruction, one turn instruction for
   * every waypoint in between, then the arrival.
   */
  method GenerateInstructions(points: seq<Point>, h: Nav.Metric, bearing: Bearing) returns (instructions: seq<Instruction>)
    ensures instructions == Instructions(points, h, bearing)
  {
    if |points| < 2 {
      return [];
    }
    var start := Instruction(0, 0.0, Start, StartNavigation);
    assert InstructionsUpTo(points, 1, h, bearing) == [] + [start];
    instructions := [start];
    for i := 1 to |points| - 1
      invariant instructions == InstructionsUpTo(points, i, h, bearing)
    {
      var ins := StepInstruction(points, i, h, bearing);
      assert InstructionsUpTo(points, i + 1, h, bearing) == instructions + [ins];
      instructions := instructions + [ins];
    }
    var last := |points| - 1;
    var arrival := StepInstruction(points, last, h, bearing);
    assert InstructionsUpTo(points, last + 1, h, bearing) == instructions + [arrival];
    instructions := instructions + [arrival];
  }
}
