/**
 * The integer logic of `updateDisplay`: the HH:MM:SS uptime line, the
 * decorative ring drawn pixel by pixel into the 64x64 area on the left of
 * the OLED, the port label and the rule that decides whether the last
 * button message is shown. The drawing primitives themselves are not
 * modelled; a frame records what would be drawn.
 */
module Display {
  import opened Decimal

  /** Seconds for which the last button message stays on the status line. */
  const DisplayDuration := 5

  /** Centre, inner radius and thickness of the ring, and the side of the area it is drawn in. */
  const CentreX := 16
  const CentreY := 33
  const InnerRadius := 15
  const RingWidth := 2
  const RingArea := 64

  /** A pixel position on the display. */
  datatype Pixel = Pixel(x: int, y: int)

  /**
   * The values one refresh draws from: the uptime in seconds, the selected
   * port and the status line (empty when the message is hidden).
   */
  datatype Frame = Frame(uptimeSeconds: int, port: int, status: string)

  /**
   * What a frame puts on the display: the uptime line, the ring pixels, the
   * port label and the status line. The static labels and frame lines are
   * the same in every frame and are not recorded.
   */
  datatype Screen = Screen(uptime: string, ring: set<Pixel>, portLabel: string, status: string)

  // ----- uptime -----

  /** Hours, minutes and seconds of an uptime, with Python's floor division and modulo. */
  function UptimeFields(s: int): (int, int, int) {
    (s / 3600, s % 3600 / 60, s % 60)
  }

  /** Minutes and seconds are below 60, the three fields recombine to the uptime, and hours keep its sign. */
  lemma UptimeFieldsSplit(s: int)
    ensures var hms := UptimeFields(s);
      && 0 <= hms.1 < 60 && 0 <= hms.2 < 60
      && hms.0 * 3600 + hms.1 * 60 + hms.2 == s
      && (s >= 0 ==> hms.0 >= 0)
  {
    var h, r := s / 3600, s % 3600;
    var m, sec := r / 60, r % 60;
    assert s == h * 3600 + r && 0 <= r < 3600;
    assert r == m * 60 + sec && 0 <= sec < 60;
    assert 0 <= m < 60;
    assert s == (h * 60 + m) * 60 + sec;
    DivModUnique(s, 60, h * 60 + m, sec);
  }

  /** The split is the only one with minutes and seconds below 60. */
  lemma UptimeFieldsUnique(h: int, m: int, sec: int)
    requires 0 <= m < 60 && 0 <= sec < 60
    ensures UptimeFields(h * 3600 + m * 60 + sec) == (h, m, sec)
  {
    var s := h * 3600 + m * 60 + sec;
    var r := m * 60 + sec;
    assert 0 <= r < 3600;
    assert s / 3600 == h && s % 3600 == r by {
      DivModUnique(s, 3600, h, r);
    }
    assert r / 60 == m by {
      DivModUnique(r, 60, m, sec);
    }
    assert s % 60 == sec by {
      DivModUnique(s, 60, h * 60 + m, sec);
    }
  }

  /** Euclidean division is determined by a quotient and an in-range remainder. */
  lemma DivModUnique(a: int, d: int, q: int, r: int)
    requires d > 0 && 0 <= r < d && a == q * d + r
    ensures a / d == q && a % d == r
  {
    var q', r' := a / d, a % d;
    assert (q' - q) * d == r - r';
    if q' > q {
      MulAtLeast(q' - q, d);
    } else if q' < q {
      MulAtLeast(q - q', d);
    }
  }

  lemma MulAtLeast(k: int, d: int)
    requires k >= 1 && d > 0
    ensures k * d >= d
  {
    assert (k - 1) * d >= 0;
  }

  /** The first line of the display: `Uptime: HH:MM:SS`. */
  function UptimeMessage(s: int): (msg: string)
    ensures |msg| >= 16
  {
    var hms := UptimeFields(s);
    "Uptime: " + Format2(hms.0) + ":" + Format2(hms.1) + ":" + Format2(hms.2)
  }

  /** Reads an uptime line back into seconds; None when it is not of the form `Uptime: H..H:MM:SS`. */
  function ParseUptime(msg: string): (r: Option<nat>)
  {
    if |msg| < 16 || msg[..8] != "Uptime: " || msg[|msg| - 6] != ':' || msg[|msg| - 3] != ':' then None
    else
      var h, m, sec := msg[8..|msg| - 6], msg[|msg| - 5..|msg| - 3], msg[|msg| - 2..];
      if AllDigits(h) && AllDigits(m) && AllDigits(sec)
      then Some(ParseDecimal(h) * 3600 + ParseDecimal(m) * 60 + ParseDecimal(sec))
      else None
  }

  datatype Option<T> = None | Some(value: T)

  /** The uptime line loses nothing: reading it back gives the uptime. */
  lemma UptimeMessageRoundTrip(s: nat)
    ensures ParseUptime(UptimeMessage(s)) == Some(s)
  {
    var hms := UptimeFields(s);
    UptimeFieldsSplit(s);
    var hs, ms, ss := Format2(hms.0), Format2(hms.1), Format2(hms.2);
    assert UptimeMessage(s) == "Uptime: " + hs + ":" + ms + ":" + ss;
    UptimeLineFields(hs, ms, ss);
    Format2RoundTrip(hms.0);
    Format2RoundTrip(hms.1);
    Format2RoundTrip(hms.2);
  }

  /** Where the three fields of an uptime line sit, given two-character minutes and seconds. */
  lemma UptimeLineFields(hs: string, ms: string, ss: string)
    requires |ms| == 2 && |ss| == 2
    ensures var msg := "Uptime: " + hs + ":" + ms + ":" + ss;
      && |msg| == |hs| + 14
      && msg[..8] == "Uptime: " && msg[|msg| - 6] == ':' && msg[|msg| - 3] == ':'
      && msg[8..|msg| - 6] == hs && msg[|msg| - 5..|msg| - 3] == ms && msg[|msg| - 2..] == ss
  {
    var msg := "Uptime: " + hs + ":" + ms + ":" + ss;
    assert msg[..8] == "Uptime: ";
    assert msg[8..|msg| - 6] == hs;
    assert msg[|msg| - 5..|msg| - 3] == ms;
    assert msg[|msg| - 2..] == ss;
  }

  // ----- ring -----

  /** The annulus test: squared distance from the centre between 15^2 and (15 + 2)^2. */
  predicate InRing(x: int, y: int) {
    var d := (x - CentreX) * (x - CentreX) + (y - CentreY) * (y - CentreY);
    InnerRadius * InnerRadius <= d <= (InnerRadius + RingWidth) * (InnerRadius + RingWidth)
  }

  /** Every ring pixel lies within 17 of the centre on both axes, and the centre is not one. */
  lemma RingBounds(x: int, y: int)
    requires InRing(x, y)
    ensures CentreX - 17 <= x <= CentreX + 17 && CentreY - 17 <= y <= CentreY + 17
    ensures (x, y) != (CentreX, CentreY)
  {
    var dx, dy := x - CentreX, y - CentreY;
    SquareBound(dx);
    SquareBound(dy);
    assert dy * dy >= 0 && dx * dx >= 0;
  }

  /** A square of more than 17 in magnitude is above 289. */
  lemma SquareBound(d: int)
    ensures d > 17 || d < -17 ==> d * d > 289
  {
    if d > 17 {
      assert d * d >= 18 * d;
    } else if d < -17 {
      assert d * d >= 18 * -d;
    }
  }

  /** The ring is symmetric under reflection through either axis and the diagonal (proved unaided). */
  lemma RingSymmetric(dx: int, dy: int)
    ensures InRing(CentreX + dx, CentreY + dy) == InRing(CentreX - dx, CentreY + dy)
    ensures InRing(CentreX + dx, CentreY + dy) == InRing(CentreX + dx, CentreY - dy)
    ensures InRing(CentreX + dx, CentreY + dy) == InRing(CentreX + dy, CentreY + dx)
  {
  }

  /** The pixels the ring loops light: the annulus points inside the 64x64 area. */
  function RingPixels(): set<Pixel> {
    set x: int, y: int | 0 <= x < RingArea && 0 <= y < RingArea && InRing(x, y) :: Pixel(x, y)
  }

  /**
   * The ring reaches one column past the left edge of the drawing area:
   * (-1, 33) passes the annulus test but the loops start at x = 0, so the
   * drawn ring is clipped there; its other three extremes are drawn.
   */
  lemma RingClippedAtLeftEdge()
    ensures InRing(CentreX - 17, CentreY) && Pixel(CentreX - 17, CentreY) !in RingPixels()
    ensures Pixel(CentreX + 17, CentreY) in RingPixels()
    ensures Pixel(CentreX, CentreY - 17) in RingPixels() && Pixel(CentreX, CentreY + 17) in RingPixels()
  {
  }

  /** The nested `for x` / `for y` loops of `updateDisplay` that light the ring. */
  method DrawRing() returns (lit: set<Pixel>)
    ensures lit == RingPixels()
    ensures forall p :: p in lit <==> 0 <= p.x < RingArea && 0 <= p.y < RingArea && InRing(p.x, p.y)
    ensures Pixel(CentreX, CentreY) !in lit
  {
    lit := {};
    for x := 0 to RingArea
      invariant forall p :: p in lit <==> 0 <= p.x < x && 0 <= p.y < RingArea && InRing(p.x, p.y)
    {
      for y := 0 to RingArea
        invariant forall p :: p in lit <==>
          ((0 <= p.x < x && 0 <= p.y < RingArea) || (p.x == x && 0 <= p.y < y)) && InRing(p.x, p.y)
      {
        if InRing(x, y) {
          lit := lit + {Pixel(x, y)};
        }
      }
    }
    forall p | p in RingPixels()
      ensures p in lit
    {
    }
  }

  // ----- labels and status line -----

  /** The `KVM Port: <n>` label. */
  function PortLabel(port: int): string {
    "KVM Port: " + IntToString(port)
  }

  /** The text and pixels `updateDisplay` draws for a frame. */
  function Render(f: Frame): Screen {
    Screen(UptimeMessage(f.uptimeSeconds), RingPixels(), PortLabel(f.port), f.status)
  }

  /** The last button message is drawn while a press is flagged and less than five seconds old. */
  predicate StatusVisible(pressed: bool, pressTime: int, now: int) {
    pressed && now - pressTime < DisplayDuration
  }

  /** Once a message is hidden at some time it stays hidden at every later time. */
  lemma StatusHiddenLater(pressed: bool, pressTime: int, now: int, later: int)
    requires !StatusVisible(pressed, pressTime, now) && now <= later
    ensures !StatusVisible(pressed, pressTime, later)
  {
  }
}
