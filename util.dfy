/**
  The two formatting helpers of `src/util.rs`: `pretty_time`, which writes a
  number of seconds as hours, minutes and seconds, and `progress_bar`, which
  draws a bracketed bar of '#' and '.' characters.
*/
module Util {
  import opened Outcomes
  import opened Decimal
  import opened Basics

  // ---------------------------------------------------------------------------
  // pretty_time

  function Hours(t: nat): nat { t / 3600 }
  function Minutes(t: nat): nat { (t % 3600) / 60 }
  function Seconds(t: nat): nat { t % 60 }

  /** The three parts recompose the total, and minutes and seconds stay below 60. */
  lemma TimeParts(t: nat)
    ensures Hours(t) * 3600 + Minutes(t) * 60 + Seconds(t) == t
    ensures Minutes(t) < 60 && Seconds(t) < 60
  {
    var r := t % 3600;
    assert t == Hours(t) * 3600 + r;
    assert r == Minutes(t) * 60 + r % 60;
    assert t == (Hours(t) * 60 + Minutes(t)) * 60 + r % 60;
    assert t % 60 == r % 60;
  }

  /** A number in decimal followed by its unit letter, as `write!(s, "{n}h")` appends it. */
  function Group(n: nat, unit: char): (g: string)
    ensures |g| >= 2 && AllDigits(g[..|g| - 1]) && g[|g| - 1] == unit
  {
    var g := Decimal.Decimal(n) + [unit];
    assert g[..|g| - 1] == Decimal.Decimal(n);
    g
  }

  /** The text `pretty_time` builds: hours and minutes only when non-zero, seconds always. */
  function Pretty(t: nat): string {
    Render(Hours(t), Minutes(t), Seconds(t))
  }

  /** The hours, minutes and seconds parts, laid end to end. */
  function Render(h: nat, m: nat, sec: nat): string {
    Part(h, 'h') + (Part(m, 'm') + Group(sec, 's'))
  }

  /** A group that is left out when its number is zero. */
  function Part(n: nat, unit: char): string {
    if n > 0 then Group(n, unit) else ""
  }

  /**
    `pretty_time`: splits the total into hours, minutes and seconds, then
    appends the parts one after the other to an initially empty string.
  */
  method PrettyTime(totalSecs: nat) returns (s: string)
    ensures s == Pretty(totalSecs)
  {
    var hrs := totalSecs / 3600;
    var mins := (totalSecs % 3600) / 60;
    var secs := totalSecs % 60;
    s := WriteParts(hrs, mins, secs);
  }

  /** The appends of `pretty_time`: hours and minutes only when non-zero, seconds always. */
  method WriteParts(hrs: nat, mins: nat, secs: nat) returns (s: string)
    ensures s == Render(hrs, mins, secs)
  {
    s := "";
    if hrs > 0 {
      s := s + Group(hrs, 'h');
    }
    if mins > 0 {
      s := s + Group(mins, 'm');
    }
    s := s + Group(secs, 's');
  }

  /** How many seconds `n` of a unit letter stand for. */
  function GroupSeconds(n: nat, unit: char): Option<nat> {
    if unit == 'h' then Some(n * 3600)
    else if unit == 'm' then Some(n * 60)
    else if unit == 's' then Some(n)
    else None
  }

  /** The length of the run of digits `s` starts with. */
  function LeadingDigits(s: string): (k: nat)
    ensures k <= |s| && AllDigits(s[..k])
    ensures k < |s| ==> !IsDigit(s[k])
    decreases |s|
  {
    if s == [] || !IsDigit(s[0]) then 0
    else
      var k := 1 + LeadingDigits(s[1..]);
      assert s[..k] == [s[0]] + s[1..][..k - 1];
      k
  }

  /**
    Reads a duration written as groups of digits each followed by 'h', 'm' or
    's', in any number, and adds them up in seconds; `None` for any other text.
  */
  function DurationValue(s: string): Option<nat>
    decreases |s|
  {
    if s == [] then Some(0)
    else
      var k := LeadingDigits(s);
      if k == 0 || k == |s| then None
      else
        match (GroupSeconds(Value(s[..k]), s[k]), DurationValue(s[k + 1..]))
        case (Some(g), Some(v)) => Some(g + v)
        case _ => None
  }

  lemma {:induction false} LeadingDigitsOf(d: string, rest: string)
    requires AllDigits(d) && rest != [] && !IsDigit(rest[0])
    ensures LeadingDigits(d + rest) == |d|
    decreases |d|
  {
    if d != [] {
      assert (d + rest)[1..] == d[1..] + rest;
      LeadingDigitsOf(d[1..], rest);
      LeadingDigitsStep(d + rest, d[1..] + rest);
    }
  }

  /** One unfolding of `LeadingDigits` over a leading digit. */
  lemma LeadingDigitsStep(s: string, tail: string)
    requires s != [] && IsDigit(s[0]) && tail == s[1..]
    ensures LeadingDigits(s) == 1 + LeadingDigits(tail)
  {
  }

  /** A leading group is read back as its number in seconds. */
  lemma ReadGroup(n: nat, unit: char, g: nat, rest: string, v: nat)
    requires GroupSeconds(n, unit) == Some(g) && DurationValue(rest) == Some(v)
    ensures DurationValue(Group(n, unit) + rest) == Some(g + v)
  {
    var d := Decimal.Decimal(n);
    var s := Group(n, unit) + rest;
    assert LeadingDigits(s) == |d| && s[..|d|] == d && s[|d|] == unit && s[|d| + 1..] == rest by {
      assert s == d + ([unit] + rest);
      LeadingDigitsOf(d, [unit] + rest);
    }
    ValueOfDecimal(n);
    ReadLeadingGroup(s, |d|, d, rest, g, v);
  }

  /** One unfolding of `DurationValue`: the leading group, then the rest. */
  lemma ReadLeadingGroup(s: string, k: nat, digits: string, rest: string, g: nat, v: nat)
    requires 0 < k < |s| && LeadingDigits(s) == k && digits == s[..k] && rest == s[k + 1..]
    requires GroupSeconds(Value(digits), s[k]) == Some(g) && DurationValue(rest) == Some(v)
    ensures DurationValue(s) == Some(g + v)
  {
  }

  lemma ReadPart(n: nat, unit: char, g: nat, rest: string, v: nat)
    requires GroupSeconds(n, unit) == Some(g) && DurationValue(rest) == Some(v)
    ensures DurationValue(Part(n, unit) + rest) == Some(g + v)
  {
    if n > 0 {
      ReadGroup(n, unit, g, rest, v);
    } else {
      assert Part(n, unit) + rest == rest;
    }
  }

  lemma RenderReadsBack(h: nat, m: nat, sec: nat, t: nat)
    requires t == h * 3600 + m * 60 + sec
    ensures DurationValue(Render(h, m, sec)) == Some(t)
  {
    var last := Group(sec, 's');
    assert DurationValue(last) == Some(sec) by {
      ReadNothing();
      ReadGroup(sec, 's', sec, [], 0);
      assert last + [] == last;
    }
    var mid := Part(m, 'm') + last;
    assert DurationValue(mid) == Some(m * 60 + sec) by {
      ReadPart(m, 'm', m * 60, last, sec);
    }
    ReadPart(h, 'h', h * 3600, mid, m * 60 + sec);
    assert Render(h, m, sec) == Part(h, 'h') + mid;
  }

  lemma ReadNothing()
    ensures DurationValue([]) == Some(0)
  {
  }

  /** Round trip: the text `pretty_time` writes reads back as the same number of seconds. */
  lemma PrettyReadsBack(t: nat)
    ensures DurationValue(Pretty(t)) == Some(t)
  {
    TimeParts(t);
    RenderReadsBack(Hours(t), Minutes(t), Seconds(t), t);
  }

  lemma RenderUnits(h: nat, m: nat, sec: nat)
    ensures 'h' in Render(h, m, sec) <==> h > 0
    ensures 'm' in Render(h, m, sec) <==> m > 0
    ensures Render(h, m, sec)[|Render(h, m, sec)| - 1] == 's'
  {
    UnitLetters(h, 'h');
    UnitLetters(m, 'm');
    UnitLetters(sec, 's');
    var tail := Part(m, 'm') + Group(sec, 's');
    assert 'h' in tail <==> 'h' in Part(m, 'm') || 'h' in Group(sec, 's');
    assert 'm' in tail <==> 'm' in Part(m, 'm') || 'm' in Group(sec, 's');
    assert Render(h, m, sec)[|Render(h, m, sec)| - 1] == Group(sec, 's')[|Group(sec, 's')| - 1];
  }

  /** Of the unit letters, a part holds its own exactly when it is present, and no other. */
  lemma UnitLetters(n: nat, unit: char)
    requires unit in "hms"
    ensures forall c :: c in "hms" ==> (c in Group(n, unit) <==> c == unit)
    ensures forall c :: c in "hms" ==> (c in Part(n, unit) <==> n > 0 && c == unit)
  {
    var g := Group(n, unit);
    NoLetters(n, unit);
    assert g[|g| - 1] == unit;
    forall c | c in "hms"
      ensures c in g <==> c == unit
    {
      if c in g {
        var i :| 0 <= i < |g| && g[i] == c;
      }
    }
  }

  /**
    The hours part appears exactly when there is at least an hour, the minutes
    part exactly when the minutes are non-zero, and the text always ends in the
    seconds part.
  */
  lemma PrettyUnits(t: nat)
    ensures 'h' in Pretty(t) <==> t >= 3600
    ensures 'm' in Pretty(t) <==> t % 3600 >= 60
    ensures Pretty(t)[|Pretty(t)| - 1] == 's'
  {
    RenderUnits(Hours(t), Minutes(t), Seconds(t));
  }

  /** A group holds no unit letter but its own, and that one only at its end. */
  lemma NoLetters(n: nat, unit: char)
    ensures forall i :: 0 <= i < |Group(n, unit)| - 1 ==> Group(n, unit)[i] !in "hms"
  {
    var g := Group(n, unit);
    forall i | 0 <= i < |g| - 1
      ensures g[i] !in "hms"
    {
      assert g[..|g| - 1][i] == g[i];
    }
  }

  lemma PrettyExamples()
    ensures Pretty(0) == "0s"
    ensures Pretty(3600) == "1h0s"
    ensures Pretty(3725) == "1h2m5s"
  {
    assert Hours(3725) == 1 && Minutes(3725) == 2 && Seconds(3725) == 5;
    assert Hours(3600) == 1 && Minutes(3600) == 0 && Seconds(3600) == 0;
    assert Decimal.Decimal(0) == "0" && Decimal.Decimal(1) == "1";
    assert Decimal.Decimal(2) == "2" && Decimal.Decimal(5) == "5";
  }

  // ---------------------------------------------------------------------------
  // progress_bar


  /** How many of the `width - 2` inner cells are filled: `(width - 2) * value / max`, rounded down. */
  function FillCount(width: nat, value: nat, max: nat): nat
    requires width >= 2 && max > 0
  {
    (width - 2) * value / max
  }

  /** The bar `progress_bar` draws: `[`, the filled cells, the empty ones up to `width - 2` cells, `]`. */
  function Bar(width: nat, value: nat, max: nat): string
    requires width >= 2 && max > 0
  {
    var iw, n := width - 2, FillCount(width, value, max);
    "[" + Repeat('#', n) + Repeat('.', if n < iw then iw - n else 0) + "]"
  }

  /** `progress_bar`: pushes '[', then one '#' per filled cell, one '.' per empty cell, then ']'. */
  method ProgressBar(width: nat, value: nat, max: nat) returns (s: string)
    requires width >= 2 && max > 0
    requires (width - 2) * value < U64Limit
    ensures s == Bar(width, value, max)
  {
    var iw := width - 2;
    var n := iw * value / max;
    assert n == FillCount(width, value, max);
    s := "[";
    var i := 0;
    while i < n
      invariant i <= n && s == "[" + Repeat('#', i)
    {
      RepeatOneMore('#', i);
      s := s + "#";
      i := i + 1;
    }
    var j := n;
    while j < iw
      invariant n <= j <= if n <= iw then iw else n
      invariant s == "[" + Repeat('#', n) + Repeat('.', j - n)
    {
      RepeatOneMore('.', j - n);
      s := s + ".";
      j := j + 1;
    }
    assert j - n == if n < iw then iw - n else 0;
    s := s + "]";
  }

  /** The cells of a bar with `n` filled and `k` empty cells. */
  lemma Cells(n: nat, k: nat)
    ensures
      var b := "[" + Repeat('#', n) + Repeat('.', k) + "]";
      && |b| == n + k + 2 && b[0] == '[' && b[n + k + 1] == ']'
      && (forall i :: 1 <= i <= n ==> b[i] == '#')
      && (forall i :: n < i <= n + k ==> b[i] == '.')
      && ('.' in b <==> k > 0)
  {
    var b := "[" + Repeat('#', n) + Repeat('.', k) + "]";
    if k > 0 {
      assert b[n + 1] == '.';
    } else {
      assert forall i :: 0 <= i < |b| ==> b[i] != '.';
    }
  }

  lemma FillAtMost(x: nat, value: nat, max: nat)
    requires max > 0 && value <= max
    ensures x * value / max <= x
  {
    assert x * value <= x * max;
    assert (x + 1) * max == x * max + max;
    DivReaches(x * value, max, x + 1);
  }

  lemma FillAtLeast(x: nat, value: nat, max: nat)
    requires max > 0 && value >= max
    ensures x * value / max >= x
  {
    assert x * value >= x * max;
    DivReaches(x * value, max, x);
  }

  /** The bar always opens with '[' and closes with ']', and is never shorter than `width`. */
  lemma BarBrackets(width: nat, value: nat, max: nat)
    requires width >= 2 && max > 0
    ensures |Bar(width, value, max)| >= width
    ensures Bar(width, value, max)[0] == '[' && Bar(width, value, max)[|Bar(width, value, max)| - 1] == ']'
  {
    var iw, n := width - 2, FillCount(width, value, max);
    Cells(n, if n < iw then iw - n else 0);
  }

  /**
    Up to `max`, the bar is exactly `width` characters: `FillCount` '#' cells,
    then '.' cells.
  */
  lemma BarWithinMax(width: nat, value: nat, max: nat)
    requires width >= 2 && max > 0 && value <= max
    ensures FillCount(width, value, max) <= width - 2
    ensures |Bar(width, value, max)| == width
    ensures forall i :: 1 <= i <= FillCount(width, value, max) ==> Bar(width, value, max)[i] == '#'
    ensures forall i :: FillCount(width, value, max) < i < width - 1 ==> Bar(width, value, max)[i] == '.'
  {
    var iw, n := width - 2, FillCount(width, value, max);
    FillAtMost(iw, value, max);
    Cells(n, iw - n);
  }

  /** At `max` every cell is filled; at 0 none is. */
  lemma BarEnds(width: nat, max: nat)
    requires width >= 2 && max > 0
    ensures forall i :: 0 < i < width - 1 ==> Bar(width, max, max)[i] == '#'
    ensures forall i :: 0 < i < width - 1 ==> Bar(width, 0, max)[i] == '.'
  {
    var iw := width - 2;
    FillAtMost(iw, max, max);
    FillAtLeast(iw, max, max);
    assert iw * 0 == 0;
    BarWithinMax(width, max, max);
    BarWithinMax(width, 0, max);
  }

  /**
    Past `max` every cell is filled and no '.' is drawn; the bar is longer than
    `width` exactly when the fill reaches `width - 1` cells, which need not
    happen (width 3, value 3, max 2 gives "[#]").
  */
  lemma BarPastMax(width: nat, value: nat, max: nat)
    requires width >= 2 && max > 0 && value > max
    ensures FillCount(width, value, max) >= width - 2
    ensures '.' !in Bar(width, value, max)
    ensures |Bar(width, value, max)| > width <==> (width - 2) * value >= (width - 1) * max
  {
    var iw, n := width - 2, FillCount(width, value, max);
    FillAtLeast(iw, value, max);
    DivReaches(iw * value, max, iw + 1);
    Cells(n, 0);
  }

  lemma BarPastMaxExample()
    ensures Bar(3, 3, 2) == "[#]"
  {
    assert FillCount(3, 3, 2) == 1;
    assert Repeat('#', 1) == "#" && Repeat('.', 0) == "";
  }

  /** A larger value never fills fewer cells. */
  lemma FillMonotone(width: nat, v1: nat, v2: nat, max: nat)
    requires width >= 2 && max > 0 && v1 <= v2
    ensures FillCount(width, v1, max) <= FillCount(width, v2, max)
  {
    var iw := width - 2;
    var q1 := iw * v1 / max;
    assert iw * v1 <= iw * v2;
    DivReaches(iw * v1, max, q1);
    DivReaches(iw * v2, max, q1);
  }
}
