/**
 * The formatting helpers of the inbox: relative time ("vor 5 Min."), the
 * calendar-day label of a message thread separator, and the class-name joiner.
 * Clock reads become parameters; the locale-formatted date strings stay opaque.
 */
module Utils {
  import opened Text
  import Seqs

  const MsPerSecond := 1000
  const MsPerMinute := 60 * MsPerSecond
  const MsPerHour := 60 * MsPerMinute
  const MsPerDay := 24 * MsPerHour
  const MsPerWeek := 7 * MsPerDay

  /** `Math.floor(a / b)` for a positive divisor, negative `a` included. */
  function FloorDiv(a: int, b: int): (q: int)
    requires b > 0
    ensures b * q <= a < b * q + b
  {
    a / b
  }

  /** The calendar-day number of a timestamp (days since the epoch, UTC). */
  function DayNumber(ms: int): (d: int)
    ensures MsPerDay * d <= ms < MsPerDay * d + MsPerDay
  {
    FloorDiv(ms, MsPerDay)
  }

  // ---------------------------------------------------------------------------
  // formatDistanceToNow

  /** The bucket `formatDistanceToNow` picks; `AbsoluteDate` stands for the locale date string. */
  datatype Distance = JustNow | Minutes(n: nat) | Hours(n: nat) | Days(n: nat) | AbsoluteDate

  /**
   * The relative age of a timestamp `dateMs` at time `nowMs`: the whole seconds
   * elapsed, then whole minutes, hours and days, each by floor division.
   */
  function FormatDistanceToNow(nowMs: int, dateMs: int): (r: Distance)
    ensures r.JustNow? <==> nowMs - dateMs < MsPerMinute
    ensures r.Minutes? <==> MsPerMinute <= nowMs - dateMs < MsPerHour
    ensures r.Hours? <==> MsPerHour <= nowMs - dateMs < MsPerDay
    ensures r.Days? <==> MsPerDay <= nowMs - dateMs < MsPerWeek
    ensures r.AbsoluteDate? <==> MsPerWeek <= nowMs - dateMs
    ensures r.Minutes? ==> r.n == (nowMs - dateMs) / MsPerMinute && 1 <= r.n <= 59
    ensures r.Hours? ==> r.n == (nowMs - dateMs) / MsPerHour && 1 <= r.n <= 23
    ensures r.Days? ==> r.n == (nowMs - dateMs) / MsPerDay && 1 <= r.n <= 6
  {
    var diffInSeconds := FloorDiv(nowMs - dateMs, 1000);
    if diffInSeconds < 60 then JustNow
    else
      var diffInMinutes := FloorDiv(diffInSeconds, 60);
      if diffInMinutes < 60 then Minutes(diffInMinutes)
      else
        var diffInHours := FloorDiv(diffInMinutes, 60);
        if diffInHours < 24 then Hours(diffInHours)
        else
          var diffInDays := FloorDiv(diffInHours, 24);
          if diffInDays < 7 then Days(diffInDays) else AbsoluteDate
  }

  /** The position of a bucket on the time axis. */
  function Rank(d: Distance): nat {
    match d
    case JustNow => 0
    case Minutes(_) => 1
    case Hours(_) => 2
    case Days(_) => 3
    case AbsoluteDate => 4
  }

  /** An older timestamp never lands in an earlier bucket, nor on a smaller count within one bucket. */
  lemma FormatDistanceMonotone(nowMs: int, dateMs: int, nowMs': int, dateMs': int)
    requires nowMs - dateMs <= nowMs' - dateMs'
    ensures Rank(FormatDistanceToNow(nowMs, dateMs)) <= Rank(FormatDistanceToNow(nowMs', dateMs'))
    ensures var r, r' := FormatDistanceToNow(nowMs, dateMs), FormatDistanceToNow(nowMs', dateMs');
      (r.Minutes? && r'.Minutes?) || (r.Hours? && r'.Hours?) || (r.Days? && r'.Days?) ==> r.n <= r'.n
  {
  }

  /** `diffInDays === 1 ? 'Tag' : 'Tagen'`. */
  function DayWord(n: nat): (w: string)
    ensures w == "Tag" <==> n == 1
    ensures n != 1 ==> w == "Tagen"
  {
    if n == 1 then "Tag" else "Tagen"
  }

  /** The digit character of a value below ten. */
  function Digit(d: nat): (c: char)
    requires d < 10
    ensures '0' <= c <= '9' && c as int - '0' as int == d
  {
    ('0' as int + d) as char
  }

  /** The decimal numeral of `n`, as a template literal `${n}` writes it. */
  function Decimal(n: nat): (s: string)
    ensures |s| >= 1
    ensures forall i :: 0 <= i < |s| ==> '0' <= s[i] <= '9'
  {
    if n < 10 then [Digit(n)] else Decimal(n / 10) + [Digit(n % 10)]
  }

  /** The value of a string of decimal digits. */
  function ParseDecimal(s: string): nat
    requires forall i :: 0 <= i < |s| ==> '0' <= s[i] <= '9'
  {
    if s == [] then 0 else ParseDecimal(s[..|s| - 1]) * 10 + (s[|s| - 1] as int - '0' as int)
  }

  /** Reading a numeral back gives the number it was made from. */
  lemma {:induction false} ParseDecimalOfDecimal(n: nat)
    ensures ParseDecimal(Decimal(n)) == n
  {
    if n >= 10 {
      var s := Decimal(n);
      assert s[..|s| - 1] == Decimal(n / 10);
      ParseDecimalOfDecimal(n / 10);
    }
  }

  /** The text `formatDistanceToNow` returns; `absolute` is the locale date string of the timestamp. */
  function DistanceText(d: Distance, absolute: string): (r: string)
    ensures d.JustNow? ==> r == "Gerade eben"
    ensures d.Minutes? ==> r == "vor " + Decimal(d.n) + " Min."
    ensures d.Hours? ==> r == "vor " + Decimal(d.n) + " Std."
    ensures d.Days? ==> r == "vor " + Decimal(d.n) + " " + DayWord(d.n)
    ensures d.AbsoluteDate? ==> r == absolute
  {
    match d
    case JustNow => "Gerade eben"
    case Minutes(n) => "vor " + Decimal(n) + " Min."
    case Hours(n) => "vor " + Decimal(n) + " Std."
    case Days(n) => "vor " + Decimal(n) + " " + DayWord(n)
    case AbsoluteDate => absolute
  }

  /** The unit word of a relative bucket. */
  function UnitWord(d: Distance): string
    requires d.Minutes? || d.Hours? || d.Days?
  {
    if d.Minutes? then "Min." else if d.Hours? then "Std." else DayWord(d.n)
  }

  /** The relative texts are pairwise distinct: the text determines the bucket and its count. */
  lemma DistanceTextInjective(d: Distance, d': Distance, absolute: string)
    requires !d.AbsoluteDate? && !d'.AbsoluteDate?
    requires DistanceText(d, absolute) == DistanceText(d', absolute)
    ensures d == d'
  {
    WordsOfDistanceText(d, absolute);
    WordsOfDistanceText(d', absolute);
  }

  /** A relative text splits on spaces into its words: "vor", the numeral and the unit. */
  lemma WordsOfDistanceText(d: Distance, absolute: string)
    requires !d.AbsoluteDate?
    ensures d.JustNow? ==> Split(DistanceText(d, absolute), ' ') == ["Gerade", "eben"]
    ensures !d.JustNow? ==> Split(DistanceText(d, absolute), ' ') == ["vor", Decimal(d.n), UnitWord(d)]
    ensures !d.JustNow? ==> ParseDecimal(Decimal(d.n)) == d.n
  {
    if d.JustNow? {
      assert "Gerade eben" == Join(["Gerade", "eben"], " ");
      SplitJoin(["Gerade", "eben"], ' ');
    } else {
      var ws := ["vor", Decimal(d.n), UnitWord(d)];
      JoinThree("vor", Decimal(d.n), UnitWord(d), " ");
      assert "vor " == "vor" + " ";
      assert " Min." == " " + "Min." && " Std." == " " + "Std.";
      assert DistanceText(d, absolute) == Join(ws, " ");
      assert forall i :: 0 <= i < |ws[1]| ==> ws[1][i] != ' ';
      SplitJoin(ws, ' ');
      ParseDecimalOfDecimal(d.n);
    }
  }

  // ---------------------------------------------------------------------------
  // formatDate

  /**
   * The thread-separator label. `WeekdayName` and `FullDate` stand for the
   * locale strings and carry what they depend on: the weekday (day number
   * modulo 7) and the calendar day.
   */
  datatype DateLabel = Today | Yesterday | WeekdayName(weekday: nat) | FullDate(day: int)

  /** The label of a message on calendar day `messageDay` when today is `today`. */
  function FormatDate(today: int, messageDay: int): (r: DateLabel)
    ensures r == Today <==> today - messageDay == 0
    ensures r == Yesterday <==> today - messageDay == 1
    ensures r.WeekdayName? <==> today - messageDay < 7 && today - messageDay != 0 && today - messageDay != 1
    ensures r.WeekdayName? ==> r.weekday == messageDay % 7 && r.weekday < 7
    ensures r.FullDate? <==> today - messageDay >= 7
    ensures r.FullDate? ==> r.day == messageDay
  {
    var diffInDays := today - messageDay;
    if diffInDays == 0 then Today
    else if diffInDays == 1 then Yesterday
    else if diffInDays < 7 then WeekdayName(messageDay % 7)
    else FullDate(messageDay)
  }

  /** A day in the future and the day a week before it share a weekday label. */
  lemma FutureDayLabelRecurs(today: int)
    ensures FormatDate(today, today + 5) == FormatDate(today, today - 2)
  {
  }

  // ---------------------------------------------------------------------------
  // cn

  /** An argument of `cn`: `string | boolean | undefined | null`. */
  datatype ClassValue = Str(s: string) | Flag(b: bool) | Undefined | Null

  /** JavaScript truthiness (`Boolean(v)`). */
  predicate Truthy(v: ClassValue): (b: bool)
    ensures v.Str? ==> (b <==> v.s != "")
    ensures v.Flag? ==> (b <==> v.b)
    ensures v.Undefined? || v.Null? ==> !b
  {
    match v
    case Str(s) => s != ""
    case Flag(b) => b
    case Undefined => false
    case Null => false
  }

  /** `String(v)`: the text `join` writes for a kept (truthy) entry. */
  function ClassText(v: ClassValue): (r: string)
    ensures v.Str? ==> r == v.s
    ensures Truthy(v) ==> r != ""
  {
    match v
    case Str(s) => s
    case Flag(b) => if b then "true" else "false"
    case Undefined => "undefined"
    case Null => "null"
  }

  /** The texts of the truthy arguments, in order. */
  function KeptClasses(classes: seq<ClassValue>): (ks: seq<string>)
    ensures |ks| <= |classes|
    ensures forall k :: 0 <= k < |ks| ==> ks[k] != ""
    ensures |ks| == |Seqs.Filter(classes, Truthy)|
    ensures forall k :: 0 <= k < |ks| ==> ks[k] == ClassText(Seqs.Filter(classes, Truthy)[k])
  {
    var kept := Seqs.Filter(classes, Truthy);
    assert forall i :: 0 <= i < |kept| ==> Truthy(kept[i]) by {
      forall i | 0 <= i < |kept| ensures Truthy(kept[i]) { assert kept[i] in kept; }
    }
    seq(|kept|, i requires 0 <= i < |kept| => ClassText(kept[i]))
  }

  /** `classes.filter(Boolean).join(' ')`. */
  function Cn(classes: seq<ClassValue>): (r: string)
    ensures (forall k :: 0 <= k < |classes| ==> !Truthy(classes[k])) ==> r == ""
  {
    var ks := KeptClasses(classes);
    assert (forall k :: 0 <= k < |classes| ==> !Truthy(classes[k])) ==> ks == [] by {
      if ks != [] {
        var kept := Seqs.Filter(classes, Truthy);
        assert kept[0] in kept;
      }
    }
    Join(ks, " ")
  }

  /**
   * When no argument holds a space, the words of `cn`'s result are exactly the
   * truthy arguments in their order, each non-empty: one space between two.
   */
  lemma CnWords(classes: seq<ClassValue>)
    requires KeptClasses(classes) != []
    requires forall k :: 0 <= k < |classes| ==> ' ' !in ClassText(classes[k])
    ensures Split(Cn(classes), ' ') == KeptClasses(classes)
    ensures forall w :: w in Split(Cn(classes), ' ') ==> w != ""
  {
    var ks := KeptClasses(classes);
    var kept := Seqs.Filter(classes, Truthy);
    forall k | 0 <= k < |ks| ensures ' ' !in ks[k] {
      assert kept[k] in kept;
      var j :| 0 <= j < |classes| && classes[j] == kept[k];
    }
    SplitJoin(ks, ' ');
  }
}
