/**
 * The progress dashboard: the `formatTime` label of the total time spent, and the
 * import handler, which replaces the displayed record only after an accepted import.
 */
module Dashboard {
  import opened Outcomes
  import opened Types
  import opened Storage
  import opened Progress
  import opened Decimal

  // ---------------------------------------------------------------------------
  // formatTime

  /** JavaScript's `a % b` for a positive `b`: the remainder takes the sign of `a`. */
  function JsRemainder(a: int, b: int): (r: int)
    requires b > 0
    ensures a >= 0 ==> r == a % b
    ensures a < 0 ==> -b < r <= 0
    ensures (a - r) % b == 0
  {
    if a >= 0 then
      var q := a / b;
      MultipleHasNoRemainder(q, b);
      assert a - a % b == q * b;
      a % b
    else
      var n := -a;
      var q := n / b;
      assert n == q * b + n % b;
      MultipleHasNoRemainder(-q, b);
      assert (-q) * b == -(q * b);
      assert a - -(n % b) == (-q) * b;
      -(n % b)
  }

  lemma {:induction false} ProductAtLeast(d: int, b: int)
    requires d >= 1 && b > 0
    ensures d * b >= b
  {
    if d > 1 {
      ProductAtLeast(d - 1, b);
      assert d * b == (d - 1) * b + b;
    }
  }

  /** A multiple of `b` leaves remainder zero. */
  lemma MultipleHasNoRemainder(k: int, b: int)
    requires b > 0
    ensures (k * b) % b == 0
  {
    var x := k * b;
    var q := x / b;
    var rm := x % b;
    assert x == q * b + rm;
    assert (q - k) * b == -rm;
    if q > k {
      ProductAtLeast(q - k, b);
    } else if q < k {
      ProductAtLeast(k - q, b);
    }
  }

  /** `Math.floor(seconds / 3600)`: the whole hours, rounded down also below zero. */
  function Hours(seconds: int): (h: int)
    ensures h * 3600 <= seconds < h * 3600 + 3600
  {
    seconds / 3600
  }

  /** `Math.floor((seconds % 3600) / 60)`, with JavaScript's remainder. */
  function Minutes(seconds: int): (m: int)
    ensures m * 60 <= JsRemainder(seconds, 3600) < m * 60 + 60
    ensures seconds >= 0 ==> 0 <= m < 60
    ensures seconds < 0 ==> -60 <= m <= 0
  {
    JsRemainder(seconds, 3600) / 60
  }

  /**
   * `${hours}h ${minutes}m`, negative parts included: the label reads back as its two
   * parts (and, by `ReadTimeExact`, no other text does).
   */
  function FormatTime(seconds: int): (text: string)
    ensures ReadTime(text) == Some((Hours(seconds), Minutes(seconds)))
  {
    LabelReadsBack(Hours(seconds), Minutes(seconds));
    IntToString(Hours(seconds)) + "h " + IntToString(Minutes(seconds)) + "m"
  }

  /**
   * For a non-negative total the label shows whole hours and the whole minutes left
   * over, minutes below 60, and drops the leftover seconds.
   */
  lemma FormatTimeBounds(seconds: int)
    requires seconds >= 0
    ensures 0 <= Minutes(seconds) <= 59 && Hours(seconds) >= 0
    ensures Hours(seconds) * 3600 + Minutes(seconds) * 60 <= seconds < Hours(seconds) * 3600 + Minutes(seconds) * 60 + 60
  {
  }

  /** A negative total (which `updateTimeSpent` does not prevent) shows negative parts. */
  lemma FormatTimeNegative()
    ensures FormatTime(-30) == "-1h -1m"
  {
    assert Hours(-30) == -1 && Minutes(-30) == -1;
    assert NatToString(1) == "1";
  }

  /** The text before the first `c` and the text after it, if `c` occurs. */
  function SplitAtFirst(t: string, c: char): (r: Option<(string, string)>)
    ensures r.Some? ==> t == r.value.0 + [c] + r.value.1 && c !in r.value.0
  {
    if t == [] then None
    else if t[0] == c then Some(([], t[1..]))
    else match SplitAtFirst(t[1..], c)
      case None => None
      case Some((before, after)) => Some(([t[0]] + before, after))
  }

  lemma {:induction false} SplitAtFirstFinds(a: string, c: char, b: string)
    requires c !in a
    ensures SplitAtFirst(a + [c] + b, c) == Some((a, b))
  {
    if a != [] {
      var t := a + [c] + b;
      assert t[0] == a[0] != c && c !in a[1..];
      assert t[1..] == a[1..] + [c] + b;
      SplitAtFirstFinds(a[1..], c, b);
      assert [a[0]] + a[1..] == a;
    }
  }

  /** Reads an `<hours>h <minutes>m` label back into its two numbers, each as `${i}` prints it. */
  function ReadTime(text: string): Option<(int, int)> {
    match SplitAtFirst(text, 'h')
    case None => None
    case Some((hs, rest)) =>
      if |rest| >= 2 && rest[0] == ' ' && rest[|rest| - 1] == 'm' then
        match (ReadInt(hs), ReadInt(rest[1..|rest| - 1]))
        case (Some(h), Some(m)) => Some((h, m))
        case _ => None
      else None
  }

  /** A label built from any two integers reads back as those integers. */
  lemma LabelReadsBack(h: int, m: int)
    ensures ReadTime(IntToString(h) + "h " + IntToString(m) + "m") == Some((h, m))
  {
    var hs := IntToString(h);
    var ms := IntToString(m);
    var rest := " " + ms + "m";
    assert IntToString(h) + "h " + IntToString(m) + "m" == hs + ['h'] + rest;
    assert 'h' !in hs by {
      var ds := NatToString(if h < 0 then -h else h);
      assert hs == ds || hs == "-" + ds;
      assert forall i | 0 <= i < |ds| :: ds[i] != 'h';
    }
    SplitAtFirstFinds(hs, 'h', rest);
    assert rest[1..|rest| - 1] == ms;
    ReadIntExactly(hs, h);
    ReadIntExactly(ms, m);
  }

  /** Only the label of two integers reads back as them: `ReadTime` pins the text. */
  lemma ReadTimeExact(text: string, h: int, m: int)
    requires ReadTime(text) == Some((h, m))
    ensures text == IntToString(h) + "h " + IntToString(m) + "m"
  {
    var (hs, rest) := SplitAtFirst(text, 'h').value;
    var ms := rest[1..|rest| - 1];
    ReadIntExactly(hs, h);
    ReadIntExactly(ms, m);
    assert rest == " " + ms + "m";
  }

  // ---------------------------------------------------------------------------
  // The component

  class ProgressDashboard {
    const manager: ProgressManager

    /** The displayed record, as `getProgress` returned it (an error stops the component). */
    var progress: Result<UserProgress>

    /** The initial state is whatever `getProgress` reads (and may save). */
    constructor (manager: ProgressManager, now: string)
      modifies manager
      ensures this.manager == manager
      ensures progress == ReadProgress(old(manager.store), now)
      ensures manager.store == StoreAfterReadProgress(old(manager.store), now)
    {
      this.manager := manager;
      new;
      progress := manager.GetProgress(now);
    }

    /**
     * The reader's `onload`: import the parsed file; only when the import is accepted,
     * re-read the global record and display it. A rejected import changes nothing.
     */
    method HandleImport(input: ImportInput, now: string) returns (accepted: bool)
      modifies this, manager
      ensures accepted == ImportAccepted(input)
      ensures !accepted ==> progress == old(progress) && manager.store == old(manager.store)
      ensures accepted ==>
        && progress == ReadProgress(old(manager.store)[ProgressKey := input.value], now)
        && manager.store == old(manager.store)[ProgressKey := input.value]
    {
      accepted := manager.ImportProgress(input);
      if accepted {
        progress := manager.GetProgress(now);
      }
    }

    /** The "Total Time Spent" line. */
    function TimeSpentLabel(): (line: Option<string>)
      reads this
      ensures line.Some? <==> progress.Ok?
      ensures line.Some? ==> line.value == FormatTime(progress.value.totalTimeSpent)
    {
      if progress.Ok? then Some(FormatTime(progress.value.totalTimeSpent)) else None
    }
  }
}
