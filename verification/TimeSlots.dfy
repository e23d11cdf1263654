/** Interview start times "HH:MM" from a daily window. */
module TimeSlots {
  import opened PyText

  // ---------------------------------------------------------------- int(...) and f"{n:02d}"

  predicate IsDigit(c: char) {
    '0' <= c <= '9'
  }

  /** A digit, or a numeral followed by a digit with at most one underscore between, as `int` accepts. */
  predicate IsNumeral(s: string) {
    var n := |s| - 1;
    && n >= 0 && IsDigit(s[n])
    && (n == 0 || IsNumeral(s[..n]) || (n >= 2 && s[n - 1] == '_' && IsNumeral(s[..n - 1])))
  }

  function DigitValue(c: char): nat
    requires IsDigit(c)
  {
    c as int - '0' as int
  }

  /** The value of a numeral; anything that is no digit is skipped. */
  function NumeralValue(s: string): nat {
    if s == "" then 0
    else
      var n := |s| - 1;
      var init := NumeralValue(s[..n]);
      if IsDigit(s[n]) then 10 * init + DigitValue(s[n]) else init
  }

  /** An optional sign and a numeral; None stands for ValueError. */
  function SignedValue(s: string): Option<int> {
    var signed := s != "" && (s[0] == '-' || s[0] == '+');
    var body := if signed then s[1..] else s;
    var value: int := NumeralValue(body);
    if !IsNumeral(body) then None else Some(if signed && s[0] == '-' then -value else value)
  }

  /** `int(text)` */
  function ParseInt(text: string): Option<int> {
    SignedValue(Strip(text))
  }

  function Digits(n: nat): string {
    var last := ['0' + (n % 10) as char];
    if n < 10 then last else Digits(n / 10) + last
  }

  function Pad2(n: int): string {
    if n < 0 then "-" + Digits(-n) else if n < 10 then "0" + Digits(n) else Digits(n)
  }

  lemma {:induction false} DigitsValue(n: nat)
    ensures var s := Digits(n);
      s != "" && (forall i :: 0 <= i < |s| ==> IsDigit(s[i])) && NumeralValue(s) == n
  {
    if n >= 10 {
      DigitsValue(n / 10);
      var s := Digits(n);
      assert s[..|s| - 1] == Digits(n / 10);
    } else {
      var s := Digits(n);
      assert s[..0] == "";
    }
  }

  lemma DigitsVisible(s: string)
    requires s != "" && forall i :: 0 <= i < |s| ==> 33 <= s[i] as int < 0x85
    ensures Strip(s) == s
  {
    Visible(s[0]);
    Visible(s[|s| - 1]);
    StripFixed(s);
  }

  lemma {:induction false} LeadingZero(s: string)
    requires forall i :: 0 <= i < |s| ==> IsDigit(s[i])
    ensures NumeralValue("0" + s) == NumeralValue(s)
  {
    var t := "0" + s;
    if s == "" {
      assert t[..0] == "";
    } else {
      assert t[..|t| - 1] == "0" + s[..|s| - 1];
      LeadingZero(s[..|s| - 1]);
    }
  }

  predicate AllDigits(s: string) {
    s != "" && forall i :: 0 <= i < |s| ==> IsDigit(s[i])
  }

  lemma {:induction false} AllDigitsNumeral(s: string)
    requires AllDigits(s)
    ensures IsNumeral(s) && s[0] != '-' && s[0] != '+'
  {
    assert IsDigit(s[0]);
    if |s| > 1 {
      AllDigitsNumeral(s[..|s| - 1]);
    }
  }

  lemma ParseDigits(s: string)
    requires AllDigits(s)
    ensures ParseInt(s) == Some(NumeralValue(s))
  {
    DigitsVisible(s);
    AllDigitsNumeral(s);
  }

  lemma ParseMinus(s: string)
    requires AllDigits(s)
    ensures ParseInt("-" + s) == Some(-(NumeralValue(s) as int))
  {
    var t := "-" + s;
    assert forall i :: 0 < i < |t| ==> t[i] == s[i - 1];
    DigitsVisible(t);
    SignedMinus(s);
  }

  lemma SignedMinus(s: string)
    requires AllDigits(s)
    ensures SignedValue("-" + s) == Some(-(NumeralValue(s) as int))
  {
    var t := "-" + s;
    AllDigitsNumeral(s);
    assert t[0] == '-' && t[1..] == s;
  }

  lemma PaddedShape(n: int)
    ensures n < 0 ==> AllDigits(Digits(-n)) && NumeralValue(Digits(-n)) == -n
    ensures n >= 0 ==> AllDigits(Pad2(n)) && NumeralValue(Pad2(n)) == n
    ensures forall i :: 0 <= i < |Pad2(n)| ==> Pad2(n)[i] != ':'
  {
    if n < 0 {
      DigitsValue(-n);
    } else {
      DigitsValue(n);
      LeadingZero(Digits(n));
    }
  }

  /** Reading back a padded number gives the number, negative ones included. */
  lemma ParsePadded(n: int)
    ensures ParseInt(Pad2(n)) == Some(n)
    ensures forall i :: 0 <= i < |Pad2(n)| ==> Pad2(n)[i] != ':'
  {
    PaddedShape(n);
    if n < 0 {
      ParseMinus(Digits(-n));
    } else {
      ParseDigits(Pad2(n));
    }
  }

  /** What `int` reads: digits, with single underscores between them. */
  lemma {:induction false} NumeralExactly(s: string)
    ensures IsNumeral(s) <==>
      && s != "" && IsDigit(s[0]) && IsDigit(s[|s| - 1])
      && (forall i :: 0 <= i < |s| ==> IsDigit(s[i]) || s[i] == '_')
      && (forall i :: 0 <= i < |s| - 1 ==> IsDigit(s[i]) || IsDigit(s[i + 1]))
    decreases |s|
  {
    if |s| > 1 {
      var n := |s| - 1;
      NumeralExactly(s[..n]);
      NumeralExactly(s[..n - 1]);
      assert forall i :: 0 <= i < n ==> s[..n][i] == s[i];
      assert forall i :: 0 <= i < n - 1 ==> s[..n - 1][i] == s[i];
    }
  }

  /** Underscores do not change the value. */
  lemma {:induction false} UnderscoreSkipped(a: string, b: string)
    ensures NumeralValue(a + "_" + b) == NumeralValue(a + b)
  {
    var t := a + "_" + b;
    if b == "" {
      assert t[..|t| - 1] == a && a + b == a;
    } else {
      var n := |b| - 1;
      assert t[..|t| - 1] == a + "_" + b[..n] && (a + b)[..|a + b| - 1] == a + b[..n];
      UnderscoreSkipped(a, b[..n]);
    }
  }

  /** White space around the numeral and one sign in front of it are accepted. */
  lemma SignsRead(w: string, s: string, w': string)
    requires Blank(w) && Blank(w') && IsNumeral(s)
    ensures ParseInt(w + s + w') == Some(NumeralValue(s))
    ensures ParseInt(w + ("+" + s) + w') == Some(NumeralValue(s))
    ensures ParseInt(w + ("-" + s) + w') == Some(-(NumeralValue(s) as int))
  {
    NumeralExactly(s);
    SpacesGo(w, s, w');
    SpacesGo(w, "+" + s, w');
    SpacesGo(w, "-" + s, w');
    OneSign(s);
  }

  lemma OneSign(s: string)
    requires IsNumeral(s) && IsDigit(s[0])
    ensures SignedValue(s) == Some(NumeralValue(s)) && SignedValue("+" + s) == Some(NumeralValue(s))
    ensures SignedValue("-" + s) == Some(-(NumeralValue(s) as int))
  {
    SignOff('+', s, "+" + s);
    SignOff('-', s, "-" + s);
  }

  lemma SignOff(sign: char, s: string, t: string)
    requires IsNumeral(s) && (sign == '+' || sign == '-') && t == [sign] + s
    ensures SignedValue(t) == Some(if sign == '-' then -(NumeralValue(s) as int) else NumeralValue(s))
  {
    assert t[0] == sign && t[1..] == s;
  }

  lemma SpacesGo(w: string, t: string, w': string)
    requires Blank(w) && Blank(w') && t != "" && 33 <= t[0] as int < 0x85 && 33 <= t[|t| - 1] as int < 0x85
    ensures Strip(w + t + w') == t
  {
    Visible(t[0]);
    Visible(t[|t| - 1]);
    StripAround(w, t, w');
    BlankStrips(w);
    BlankStrips(w');
    assert "" + t + "" == t;
  }

  // ---------------------------------------------------------------- times of day

  /** Minutes of "H:M" given how an integer is read; None when there are not exactly two integers. */
  function TimeBy(parse: string -> Option<int>, t: string): Option<int> {
    var k := Find(t, ':', 0);
    if k == -1 || Find(t, ':', k + 1) != -1 then None
    else
      var h, m := parse(t[..k]), parse(t[k + 1..]);
      if h.None? || m.None? then None else Some(h.value * 60 + m.value)
  }

  function ParseTime(text: Option<string>): Option<int> {
    if text.None? then None else TimeBy(ParseInt, text.value)
  }

  function HoursMinutes(h: int, m: int): string {
    Pad2(h) + ":" + Pad2(m)
  }

  function ShowTime(mins: int): string {
    HoursMinutes(mins / 60, mins % 60)
  }

  lemma TimeOfPadded(h: int, m: int, t: string)
    requires t == HoursMinutes(h, m)
    ensures ParseTime(Some(t)) == Some(h * 60 + m)
  {
    ParsePadded(h);
    ParsePadded(m);
    TimeOfJoined(ParseInt, Pad2(h), Pad2(m), h, m);
  }

  /** Printing a time and parsing it back is the identity, for every number of minutes. */
  lemma ParseShown(mins: int)
    ensures ParseTime(Some(ShowTime(mins))) == Some(mins)
  {
    TimeOfPadded(mins / 60, mins % 60, ShowTime(mins));
    HoursAndMinutes(mins);
  }

  lemma HoursAndMinutes(mins: int)
    ensures mins / 60 * 60 + mins % 60 == mins
  {
  }

  lemma TimeOfJoined(parse: string -> Option<int>, h: string, m: string, hours: int, minutes: int)
    requires (forall i :: 0 <= i < |h| ==> h[i] != ':') && (forall i :: 0 <= i < |m| ==> m[i] != ':')
    requires parse(h) == Some(hours) && parse(m) == Some(minutes)
    ensures TimeBy(parse, h + ":" + m) == Some(hours * 60 + minutes)
  {
    var t := h + ":" + m;
    OneColon(h, m);
    assert t[..|h|] == h && t[|h| + 1..] == m;
  }

  lemma OneColon(h: string, m: string)
    requires (forall i :: 0 <= i < |h| ==> h[i] != ':') && (forall i :: 0 <= i < |m| ==> m[i] != ':')
    ensures var t := h + ":" + m; Find(t, ':', 0) == |h| && Find(t, ':', |h| + 1) == -1
  {
    var t := h + ":" + m;
    assert t[|h|] == ':';
    assert forall i :: 0 <= i < |h| ==> t[i] == h[i];
    assert forall i :: |h| < i < |t| ==> t[i] == m[i - |h| - 1];
  }

  // ---------------------------------------------------------------- the slots

  function Interval(duration: int): (r: int)
    ensures r > 0
  {
    if duration > 0 then duration else 30
  }

  function Min(a: int, b: int): int {
    if a < b then a else b
  }

  function SlotAt(start: int, interval: int, i: int): int {
    start + i * interval
  }

  /** How many slots are emitted: max(0, min(limit, floor((end - start) / interval))). */
  function SlotCount(start: int, end: int, interval: int, limit: int): nat
    requires interval > 0
  {
    var n := Min(limit, (end - start) / interval);
    if n < 0 then 0 else n
  }

  function Slots(start: int, end: int, interval: int, limit: int): seq<int>
    requires interval > 0
  {
    FirstSlots(start, interval, SlotCount(start, end, interval, limit))
  }

  function FirstSlots(start: int, interval: int, n: nat): seq<int> {
    seq(n, i => SlotAt(start, interval, i))
  }

  function ShowAll(slots: seq<int>): seq<string> {
    seq(|slots|, i requires 0 <= i < |slots| => ShowTime(slots[i]))
  }

  function Schedule(start: Option<string>, end: Option<string>, duration: int, limit: int): seq<string> {
    ScheduleBetween(ParseTime(start), ParseTime(end), duration, limit)
  }

  function ScheduleBetween(s: Option<int>, e: Option<int>, duration: int, limit: int): seq<string> {
    if s.None? || e.None? then [] else ShowAll(Slots(s.value, e.value, Interval(duration), limit))
  }

  /** A slot fits the window if and only if its index is below the quotient. */
  lemma FitsIff(start: int, end: int, interval: int, i: nat)
    requires interval > 0
    ensures SlotAt(start, interval, i) + interval <= end <==> i < (end - start) / interval
  {
    var q := (end - start) / interval;
    var r := (end - start) % interval;
    assert end - start == q * interval + r;
    if i < q {
      assert (i + 1) * interval <= q * interval;
    } else {
      assert (i + 1) * interval >= (q + 1) * interval;
    }
    assert (i + 1) * interval == i * interval + interval && (q + 1) * interval == q * interval + interval;
  }

  /** The loop over slot indices. */
  method EmitSlots(startMins: int, endMins: int, interval: int, limit: int) returns (slots: seq<string>)
    requires interval > 0
    ensures slots == ShowAll(Slots(startMins, endMins, interval, limit))
  {
    slots := [];
    var bound := if limit > 0 then limit else 0;
    for i := 0 to bound
      invariant |slots| == i && slots == ShowAll(FirstSlots(startMins, interval, i))
      invariant i == 0 || i <= (endMins - startMins) / interval
    {
      var slot := SlotAt(startMins, interval, i);
      FitsIff(startMins, endMins, interval, i);
      if slot + interval > endMins {
        break;
      }
      SlotNext(startMins, interval, i);
      slots := slots + [ShowTime(slot)];
    }
    CountReached(startMins, endMins, interval, limit, |slots|);
  }

  lemma SlotNext(start: int, interval: int, n: nat)
    ensures ShowAll(FirstSlots(start, interval, n + 1)) ==
      ShowAll(FirstSlots(start, interval, n)) + [ShowTime(SlotAt(start, interval, n))]
  {
    assert FirstSlots(start, interval, n + 1) == FirstSlots(start, interval, n) + [SlotAt(start, interval, n)];
    ShownNext(FirstSlots(start, interval, n), SlotAt(start, interval, n));
  }

  lemma ShownNext(slots: seq<int>, slot: int)
    ensures ShowAll(slots + [slot]) == ShowAll(slots) + [ShowTime(slot)]
  {
    ShownByIndex(slots + [slot]);
    ShownByIndex(slots);
    assert forall i :: 0 <= i < |slots| ==> (slots + [slot])[i] == slots[i];
  }

  lemma ShownByIndex(slots: seq<int>)
    ensures |ShowAll(slots)| == |slots| && forall i :: 0 <= i < |slots| ==> ShowAll(slots)[i] == ShowTime(slots[i])
  {
  }

  /** The loop stops at the limit or at the first slot that does not fit. */
  lemma CountReached(start: int, end: int, interval: int, limit: int, n: nat)
    requires interval > 0 && (n == 0 || n <= (end - start) / interval) && (n <= limit || n == 0)
    requires n >= limit || n >= (end - start) / interval
    ensures n == SlotCount(start, end, interval, limit)
  {
  }

  method GenerateTimeSlots(start: Option<string>, end: Option<string>, duration: int, limit: int)
    returns (slots: seq<string>)
    ensures slots == Schedule(start, end, duration, limit)
  {
    var s, e := ParseTime(start), ParseTime(end);
    if s.None? || e.None? {
      return [];
    }
    slots := EmitSlots(s.value, e.value, Interval(duration), limit);
  }

  // ---------------------------------------------------------------- what the slots are

  /**
   * The schedule spelled out: the k-th time is the start plus k durations, or k half hours for a duration that is not
   * positive, and it is there if and only if the limit allows it and it ends in the window.
   */
  lemma ScheduleSpelled(start: Option<string>, end: Option<string>, duration: int, limit: int, s: int, e: int, k: nat)
    requires ParseTime(start) == Some(s) && ParseTime(end) == Some(e)
    ensures var slots, d := Schedule(start, end, duration, limit), if duration > 0 then duration else 30;
      && (k < |slots| <==> k < limit && s + k * d + d <= e)
      && (k < |slots| ==> slots[k] == ShowTime(s + k * d))
  {
    BetweenByIndex(ParseTime(start), ParseTime(end), duration, limit, s, e, k);
  }

  lemma BetweenByIndex(start: Option<int>, end: Option<int>, duration: int, limit: int, s: int, e: int, k: nat)
    requires start == Some(s) && end == Some(e)
    ensures var slots, d := ScheduleBetween(start, end, duration, limit), if duration > 0 then duration else 30;
      && (k < |slots| <==> k < limit && s + k * d + d <= e)
      && (k < |slots| ==> slots[k] == ShowTime(s + k * d))
  {
    var d := if duration > 0 then duration else 30;
    SlotsByIndex(s, e, d, limit, k);
    ShownByIndex(Slots(s, e, d, limit));
  }

  lemma SlotsByIndex(s: int, e: int, d: int, limit: int, k: nat)
    requires d > 0
    ensures var slots := Slots(s, e, d, limit);
      (k < |slots| <==> k < limit && s + k * d + d <= e) && (k < |slots| ==> slots[k] == s + k * d)
  {
    FitsIff(s, e, d, k);
  }

  /** Five characters: two digits of the hour, a colon and two digits of the minute. */
  predicate ClockFace(t: string, mins: int) {
    && |t| == 5 && (forall i :: 0 <= i < 5 && i != 2 ==> IsDigit(t[i])) && t[2] == ':'
    && mins == 60 * (10 * DigitValue(t[0]) + DigitValue(t[1])) + 10 * DigitValue(t[3]) + DigitValue(t[4])
    && t[3] <= '5'
  }

  /** A time below a hundred hours is printed as on a clock. */
  lemma ShownOnClock(mins: int)
    requires 0 <= mins < 6000
    ensures ClockFace(ShowTime(mins), mins)
  {
    TwoDigits(mins / 60);
    TwoDigits(mins % 60);
    HoursAndMinutes(mins);
  }

  lemma TwoDigits(n: int)
    requires 0 <= n < 100
    ensures var t := Pad2(n);
      |t| == 2 && IsDigit(t[0]) && IsDigit(t[1]) && n == 10 * DigitValue(t[0]) + DigitValue(t[1])
  {
    var tens := n / 10;
    assert tens < 10 && n == 10 * tens + n % 10;
    assert Digits(tens) == ['0' + (tens % 10) as char];
    assert Digits(n) == (if n < 10 then "" else Digits(tens)) + ['0' + (n % 10) as char];
  }

  /** Digits on both sides of one colon are read as hours and minutes. */
  lemma TimeRead(h: string, m: string, t: string, hours: nat, minutes: nat)
    requires AllDigits(h) && AllDigits(m) && t == h + ":" + m
    requires hours == NumeralValue(h) && minutes == NumeralValue(m)
    ensures ParseTime(Some(t)) == Some(60 * hours + minutes)
  {
    DigitsRead(h, hours);
    DigitsRead(m, minutes);
    TimeOfParsed(h, m, t, hours, minutes);
  }

  lemma DigitsRead(s: string, n: int)
    requires AllDigits(s) && n == NumeralValue(s)
    ensures ParseInt(s) == Some(n) && forall i :: 0 <= i < |s| ==> s[i] != ':'
  {
    ParseDigits(s);
  }

  lemma TimeOfParsed(h: string, m: string, t: string, hours: int, minutes: int)
    requires (forall i :: 0 <= i < |h| ==> h[i] != ':') && (forall i :: 0 <= i < |m| ==> m[i] != ':')
    requires ParseInt(h) == Some(hours) && ParseInt(m) == Some(minutes) && t == h + ":" + m
    ensures ParseTime(Some(t)) == Some(60 * hours + minutes)
  {
    TimeOfJoined(ParseInt, h, m, hours, minutes);
  }

  /** No time is read without a colon, or with two. */
  lemma TimeRejected(h: string, m: string, text: string)
    requires forall i :: 0 <= i < |text| ==> text[i] != ':'
    ensures ParseTime(None) == None && ParseTime(Some(text)) == None
    ensures ParseTime(Some(h + ":" + m + ":" + text)) == None
  {
    SecondColon(h, m, text);
  }

  lemma SecondColon(h: string, m: string, text: string)
    ensures var t := h + ":" + m + ":" + text; Find(t, ':', 0) != -1 && Find(t, ':', Find(t, ':', 0) + 1) != -1
  {
    var t := h + ":" + m + ":" + text;
    assert t[|h|] == ':' && t[|h| + 1 + |m|] == ':';
  }

  /** Slots rise by the interval and lie inside the window. */
  lemma SlotsInside(start: int, end: int, interval: int, limit: int, i: nat)
    requires interval > 0 && i < |Slots(start, end, interval, limit)|
    ensures var slots := Slots(start, end, interval, limit);
      && start <= slots[i] && slots[i] + interval <= end
      && (i + 1 < |slots| ==> slots[i + 1] == slots[i] + interval)
  {
    FitsIff(start, end, interval, i);
    assert (i + 1) * interval == i * interval + interval;
  }

  function IndexOfLargest(xs: seq<int>): (i: nat)
    requires xs != []
    ensures i < |xs| && forall k :: 0 <= k < |xs| ==> xs[k] <= xs[i]
  {
    if |xs| == 1 then 0
    else
      var n := |xs| - 1;
      var i := IndexOfLargest(xs[..n]);
      assert forall k :: 0 <= k < n ==> xs[k] == xs[..n][k];
      if xs[n] > xs[i] then n else i
  }

  /** Start times, in any order, of pairwise disjoint intervals inside the window. */
  ghost predicate Packed(starts: seq<int>, start: int, end: int, interval: int) {
    && (forall i :: 0 <= i < |starts| ==> start <= starts[i] && starts[i] + interval <= end)
    && (forall i, j :: 0 <= i < j < |starts| ==>
          starts[i] + interval <= starts[j] || starts[j] + interval <= starts[i])
  }

  /** No packing of disjoint intervals of that length into the window is larger than the quotient. */
  lemma {:induction false} PackingBound(starts: seq<int>, start: int, end: int, interval: int)
    requires interval > 0 && Packed(starts, start, end, interval)
    ensures starts != [] ==> |starts| <= (end - start) / interval
    decreases |starts|
  {
    if starts != [] {
      var last := IndexOfLargest(starts);
      var m := starts[last];
      var rest := starts[..last] + starts[last + 1..];
      assert forall k :: 0 <= k < |rest| ==> rest[k] == starts[if k < last then k else k + 1];
      PackingBound(rest, start, m, interval);
      OneMoreFits(start, end, m, interval);
    }
  }

  lemma OneMoreFits(start: int, end: int, m: int, interval: int)
    requires interval > 0 && start <= m && m + interval <= end
    ensures 0 <= (m - start) / interval < (end - start) / interval
  {
    var q := (m - start) / interval;
    FitsIff(start, end, interval, q);
  }

  /** When the limit does not bind, the emitted slots are as many as can be packed at all. */
  lemma SlotsAreMaximal(starts: seq<int>, start: int, end: int, interval: int, limit: int)
    requires interval > 0 && Packed(starts, start, end, interval)
    requires limit >= (end - start) / interval
    ensures |starts| <= |Slots(start, end, interval, limit)|
  {
    PackingBound(starts, start, end, interval);
  }

  /** Feeding slot `k` back as the start, with `k` fewer slots allowed, reproduces the schedule from `k` on. */
  lemma ScheduleResumes(start: Option<string>, end: Option<string>, duration: int, limit: int, k: nat)
    requires k < |Schedule(start, end, duration, limit)|
    ensures var all := Schedule(start, end, duration, limit);
      Schedule(Some(all[k]), end, duration, limit - k) == all[k..]
  {
    MinutesResume(ParseTime(start), ParseTime(end), duration, limit, k);
  }

  lemma MinutesResume(s: Option<int>, e: Option<int>, duration: int, limit: int, k: nat)
    requires k < |ScheduleBetween(s, e, duration, limit)|
    ensures var all := ScheduleBetween(s, e, duration, limit);
      ScheduleBetween(ParseTime(Some(all[k])), e, duration, limit - k) == all[k..]
  {
    var d := Interval(duration);
    var slot := SlotAt(s.value, d, k);
    ParseShown(slot);
    SlotsResume(s.value, e.value, d, limit, k);
    ShowSuffix(Slots(s.value, e.value, d, limit), k);
  }

  lemma ShowSuffix(slots: seq<int>, k: nat)
    requires k <= |slots|
    ensures ShowAll(slots)[k..] == ShowAll(slots[k..])
  {
  }

  lemma SlotsResume(s: int, e: int, d: int, limit: int, k: nat)
    requires d > 0 && k < |Slots(s, e, d, limit)|
    ensures Slots(SlotAt(s, d, k), e, d, limit - k) == Slots(s, e, d, limit)[k..]
  {
    QuotientShift(s, e, d, k);
    var all, again := Slots(s, e, d, limit), Slots(SlotAt(s, d, k), e, d, limit - k);
    assert |again| == |all| - k;
    forall i | 0 <= i < |again| ensures again[i] == all[k..][i] {
      assert (k + i) * d == k * d + i * d;
    }
  }

  lemma QuotientShift(s: int, e: int, d: int, k: nat)
    requires d > 0
    ensures (e - SlotAt(s, d, k)) / d == (e - s) / d - k
  {
    var q, r := (e - s) / d, (e - s) % d;
    assert (q - k) * d == q * d - k * d;
    QuotientUnique(e - SlotAt(s, d, k), d, q - k, r);
  }

  lemma QuotientUnique(x: int, d: int, q: int, r: int)
    requires d > 0 && x == q * d + r && 0 <= r < d
    ensures x / d == q
  {
    var p, r' := x / d, x % d;
    assert (p - q) * d == r - r' by {
      assert x == p * d + r';
      assert (p - q) * d == p * d - q * d;
    }
    SmallMultiple(p - q, d);
  }

  /** The only multiple of `d` strictly between -d and d is zero. */
  lemma SmallMultiple(k: int, d: int)
    requires d > 0 && -d < k * d < d
    ensures k == 0
  {
    if k >= 1 {
      Multiple(k, d);
    } else if k <= -1 {
      Multiple(-k, d);
    }
  }

  lemma Multiple(k: int, d: int)
    requires k >= 1 && d > 0
    ensures k * d >= d && (-k) * d <= -d
  {
    assert k * d == d + (k - 1) * d;
  }
}
