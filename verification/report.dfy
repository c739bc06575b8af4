/** The result line written by `log_average_speed_to_txt` (main.py lines
    183-187): `f"{avg_speed:.4f} km/s\n"`. The speed arrives already scaled
    to a whole number of ten-thousandths of a km/s. */
module Report {
  import opened Types
  import opened Decimal

  const Unit: string := " km/s\n"

  /** The rendering of a speed of `units` / 10000 km/s: the integer part, a
      point, exactly four fractional digits, then " km/s" and a newline. */
  function RenderSpeed(units: nat): (r: string)
    ensures |r| >= 12
    ensures r[|r| - 6..] == Unit
    ensures r[|r| - 11] == '.'
    ensures AllDigits(r[..|r| - 11]) && Value(r[..|r| - 11]) == units / 10000
    ensures AllDigits(r[|r| - 10..|r| - 6]) && Value(r[|r| - 10..|r| - 6]) == units % 10000
    ensures r[0] == '0' ==> |r| == 12
  {
    assert Pow10(4) == 10000;
    var whole, fraction := Show(units / 10000), Pad(units % 10000, 4);
    var r := whole + "." + fraction + Unit;
    assert r[..|r| - 11] == whole;
    assert r[|r| - 10..|r| - 6] == fraction;
    assert r[|r| - 6..] == Unit;
    r
  }

  /** Reads a result line back: a canonical run of digits (no leading zero
      other than a lone "0"), '.', four digits, " km/s\n". */
  function ParseSpeedLine(s: string): (r: Option<nat>)
  {
    match ParseNat(s, true)
    case None => None
    case Some((whole, rest)) =>
      if |rest| == 11 && rest[0] == '.' && AllDigits(rest[1..5]) && rest[5..] == Unit
      then Some(whole * 10000 + Value(rest[1..5]))
      else None
  }

  /** Rendering loses nothing: the line reads back as the same speed. */
  lemma {:induction false} RenderSpeedReadsBack(units: nat)
    ensures ParseSpeedLine(RenderSpeed(units)) == Some(units)
  {
    assert Pow10(4) == 10000;
    var whole, fraction := Show(units / 10000), Pad(units % 10000, 4);
    var rest := "." + fraction + Unit;
    assert RenderSpeed(units) == whole + rest;
    ParseNatShow(units / 10000, rest, true);
    assert rest[1..5] == fraction;
    assert rest[5..] == Unit;
  }

  /** Conversely, the only line that reads back as `units` is its
      rendering, so the rendering is determined byte for byte. */
  lemma {:induction false} ParseSpeedLineOnlyRendered(s: string, units: nat)
    requires ParseSpeedLine(s) == Some(units)
    ensures s == RenderSpeed(units)
  {
    var whole, rest := ParseNat(s, true).value.0, ParseNat(s, true).value.1;
    ParseNatOnlyShow(s, whole, rest);
    var fraction := rest[1..5];
    assert rest == "." + fraction + Unit;
    PadUnique(fraction);
    assert Pow10(4) == 10000;
    assert units / 10000 == whole && units % 10000 == Value(fraction);
  }

  /** The worked example: 7.6621 km/s renders as "7.6621 km/s\n". */
  lemma RenderExample()
    ensures RenderSpeed(76621) == "7.6621 km/s\n"
  {
    assert 76621 / 10000 == 7 && 76621 % 10000 == 6621;
    PadExample();
    assert Show(7) == "7";
    assert RenderSpeed(76621) == Show(7) + "." + Pad(6621, 4) + Unit;
    assert "7" + "." + "6621" + Unit == "7.6621 km/s\n";
  }

  lemma PadExample()
    ensures Pad(6621, 4) == "6621"
  {
    assert Pad(6, 1) == Pad(0, 0) + [DigitChar(6)] == "6";
    assert Pad(66, 2) == Pad(6, 1) + [DigitChar(6)] == "66";
    assert Pad(662, 3) == Pad(66, 2) + [DigitChar(2)] == "662";
    assert Pad(6621, 4) == Pad(662, 3) + [DigitChar(1)];
  }
}
