/** core/tkinter/TkUtil.py, `TkUtil.__calculate_geometry__`: the position
    that centres a form of a given size on a screen area, written as the Tk
    geometry string `WxH+X+Y`. */
module TkGeometry {
  import opened Outcomes
  import opened Text

  /** A Tk window geometry: size and top left corner. */
  datatype Geometry = Geometry(width: int, height: int, x: int, y: int)

  /** The offset of a form of size `form` on an area of size `area`:
      `int(area / 2 - form / 2)`.  The halves of the two integers are exact
      floats, and `int()` rounds their difference toward zero, so the space
      left over is split evenly, any odd unit going to the far side. */
  function Offset(area: int, form: int): (x: int)
    ensures form <= area ==> 0 <= (area - form - x) - x <= 1
    ensures form > area ==> -1 <= (area - form - x) - x <= 0
  {
    var d := area - form;
    if d >= 0 then d / 2 else -((-d) / 2)
  }

  /** The margins fix the offset: any position whose near and far margins
      are as balanced as `Offset` promises is that offset. */
  lemma OffsetUnique(area: int, form: int, x: int)
    requires form <= area ==> 0 <= (area - form - x) - x <= 1
    requires form > area ==> -1 <= (area - form - x) - x <= 0
    ensures x == Offset(area, form)
  {
  }

  /** `f"{w}x{h}+{x}+{y}"`. */
  function Format(g: Geometry): (s: string)
    ensures IntToString(g.width) + "x" <= s
  {
    IntToString(g.width) + "x" + IntToString(g.height) + "+" + IntToString(g.x) + "+" + IntToString(g.y)
  }

  /** Reading a geometry string back: three `+`-separated fields, the first
      of them two `x`-separated integers. */
  function Parse(s: string): (g: Option<Geometry>)
    ensures g.Some? ==> |Split(s, '+')| == 3
  {
    var parts := Split(s, '+');
    if |parts| != 3 then None
    else
      var size := Split(parts[0], 'x');
      if |size| != 2 then None
      else
        match (ParseInt(size[0]), ParseInt(size[1]), ParseInt(parts[1]), ParseInt(parts[2]))
        case (Some(w), Some(h), Some(x), Some(y)) => Some(Geometry(w, h, x, y))
        case _ => None
  }

  /** Every geometry string reads back as the geometry it was written from,
      negative offsets included. */
  lemma FormatParseRoundTrip(g: Geometry)
    ensures Parse(Format(g)) == Some(g)
  {
    var w, h, x, y := IntToString(g.width), IntToString(g.height), IntToString(g.x), IntToString(g.y);
    var size := [w, h];
    var parts := [w + "x" + h, x, y];
    FormatIsJoin(g, size, parts);
    JoinThenSplit(size, 'x');
    JoinThenSplit(parts, '+');
    IntStringRoundTrip(g.width);
    IntStringRoundTrip(g.height);
    IntStringRoundTrip(g.x);
    IntStringRoundTrip(g.y);
    ParseOfFields(Format(g), parts, size, g);
  }

  /** `Parse` on a text whose pieces are known and read as the fields. */
  lemma ParseOfFields(s: string, parts: seq<string>, size: seq<string>, g: Geometry)
    requires Split(s, '+') == parts && |parts| == 3
    requires Split(parts[0], 'x') == size && |size| == 2
    requires ParseInt(size[0]) == Some(g.width) && ParseInt(size[1]) == Some(g.height)
    requires ParseInt(parts[1]) == Some(g.x) && ParseInt(parts[2]) == Some(g.y)
    ensures Parse(s) == Some(g)
  {
  }

  /** A geometry string is its fields joined: the size with `x`, then the
      size and the offsets with `+`. */
  lemma FormatIsJoin(g: Geometry, size: seq<string>, parts: seq<string>)
    requires size == [IntToString(g.width), IntToString(g.height)]
    requires parts == [size[0] + "x" + size[1], IntToString(g.x), IntToString(g.y)]
    ensures Join("x", size) == parts[0]
    ensures Join("+", parts) == Format(g)
  {
    var w, h, x, y := size[0], size[1], parts[1], parts[2];
    assert Join("x", size) == w + "x" + h by {
      assert size[1..] == [h];
    }
    assert parts[1..] == [x, y];
    assert parts[1..][1..] == [y];
    assert Join("+", [x, y]) == x + "+" + y;
    assert Join("+", parts) == (w + "x" + h) + "+" + (x + "+" + y);
  }

  /** `__calculate_geometry__(screen_w, screen_h, form_w, form_h)`: the form
      keeps its size and is centred on the screen in both directions. */
  function CalculateGeometry(screenW: int, screenH: int, formW: int, formH: int): (s: string)
    ensures Parse(s).Some?
    ensures Parse(s).value.width == formW && Parse(s).value.height == formH
    ensures formW <= screenW ==> 0 <= (screenW - formW - Parse(s).value.x) - Parse(s).value.x <= 1
    ensures formW > screenW ==> -1 <= (screenW - formW - Parse(s).value.x) - Parse(s).value.x <= 0
    ensures formH <= screenH ==> 0 <= (screenH - formH - Parse(s).value.y) - Parse(s).value.y <= 1
    ensures formH > screenH ==> -1 <= (screenH - formH - Parse(s).value.y) - Parse(s).value.y <= 0
  {
    var g := Geometry(formW, formH, Offset(screenW, formW), Offset(screenH, formH));
    FormatParseRoundTrip(g);
    Format(g)
  }

  /** A full HD screen and a 250 by 150 form: `250x150+835+465`. */
  lemma FullHdExample()
    ensures CalculateGeometry(1920, 1080, 250, 150) == "250x150+835+465"
  {
    assert Offset(1920, 250) == 835 && Offset(1080, 150) == 465;
    FullHdNumbers();
    assert CalculateGeometry(1920, 1080, 250, 150) == Format(Geometry(250, 150, 835, 465));
    FullHdText();
  }

  lemma FullHdNumbers()
    ensures IntToString(250) == "250" && IntToString(150) == "150"
    ensures IntToString(835) == "835" && IntToString(465) == "465"
  {
    assert NatToString(25) == "25";
    assert NatToString(15) == "15";
    assert NatToString(83) == "83";
    assert NatToString(46) == "46";
  }

  lemma FullHdText()
    ensures "250" + "x" + "150" + "+" + "835" + "+" + "465" == "250x150+835+465"
  {
    assert "250" + "x" == "250x";
    assert "250x" + "150" == "250x150";
    assert "250x150" + "+" == "250x150+";
    assert "250x150+" + "835" == "250x150+835";
    assert "250x150+835" + "+" == "250x150+835+";
  }
}
