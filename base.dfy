/** Shared vocabulary of the attendance engine: optional values, the clock,
    attendance statuses, the read-only directory tables and settings, and
    the string helpers the connection registry keys are built from. */
module Base {

  datatype Option<+T> = None | Some(value: T)

  /** The first position whose element satisfies `p`: what a `SELECT` that
      takes the first matching row, or a `foreach` that stops at the first
      match, finds. */
  function FirstIndex<T>(s: seq<T>, p: T -> bool): (r: Option<nat>)
    ensures r.Some? ==> r.value < |s| && p(s[r.value])
    ensures r.Some? ==> forall k :: 0 <= k < r.value ==> !p(s[k])
    ensures r.None? <==> forall k :: 0 <= k < |s| ==> !p(s[k])
    decreases |s|
  {
    if |s| == 0 then None
    else if p(s[0]) then Some(0)
    else
      match FirstIndex(s[1..], p)
      case None =>
        assert forall k :: 1 <= k < |s| ==> s[k] == s[1..][k - 1];
        None
      case Some(k) =>
        assert s[k + 1] == s[1..][k];
        Some(k + 1)
  }

  // ---------------------------------------------------------------------
  // Clock. A moment is a number of seconds; the calendar day (CURDATE())
  // and the time of day (date('H:i:s')) are derived from it.
  // ---------------------------------------------------------------------

  const SecondsPerMinute: int := 60
  const SecondsPerDay: int := 86400

  /** The hard-coded class start, 08:00:00, as seconds after midnight. */
  const ClassStartTime: int := 8 * 3600

  function Day(now: int): int
  {
    now / SecondsPerDay
  }

  function TimeOfDay(now: int): (t: int)
    ensures 0 <= t < SecondsPerDay
    ensures Day(now) * SecondsPerDay + t == now
  {
    now % SecondsPerDay
  }

  /** PHP's `round($seconds / 60)`: the nearest whole minute, halves
      rounded away from zero. */
  function RoundMinutes(seconds: int): (m: int)
    ensures seconds >= 0 ==> 60 * m - 30 <= seconds < 60 * m + 30
    ensures seconds < 0 ==> 60 * m - 30 < seconds <= 60 * m + 30
    ensures seconds >= 0 ==> m >= 0
  {
    if seconds >= 0 then (seconds + 30) / 60 else -((30 - seconds) / 60)
  }

  // ---------------------------------------------------------------------
  // Attendance statuses
  // ---------------------------------------------------------------------

  datatype Status = Present | Late | Absent

  function StatusName(s: Status): string
  {
    match s
    case Present => "present"
    case Late => "late"
    case Absent => "absent"
  }

  /** The `in_array($newStatus, ['present', 'late', 'absent'])` test: the
      inverse of StatusName, defined on exactly its three names. */
  function ParseStatus(name: string): (r: Option<Status>)
    ensures r.Some? <==> name == "present" || name == "late" || name == "absent"
    ensures r.Some? ==> StatusName(r.value) == name
    ensures forall s: Status :: name == StatusName(s) ==> r == Some(s)
  {
    if name == "present" then Some(Present)
    else if name == "late" then Some(Late)
    else if name == "absent" then Some(Absent)
    else None
  }

  // ---------------------------------------------------------------------
  // Read-only tables: students, teachers and the settings table
  // ---------------------------------------------------------------------

  datatype Person = Person(name: string, isActive: bool)

  datatype Db = Db(students: map<nat, Person>, teachers: map<nat, Person>, settings: map<string, int>)

  /** `SELECT ... WHERE id = ? AND is_active = 1`. */
  function FindActive(people: map<nat, Person>, id: nat): (r: Option<Person>)
    ensures r.Some? <==> id in people && people[id].isActive
    ensures r.Some? ==> r.value == people[id]
  {
    if id in people && people[id].isActive then Some(people[id]) else None
  }

  /** `getSetting($key, $default)`: the stored value, or the default when
      the settings table has no row for the key. */
  function GetSetting(settings: map<string, int>, key: string, default: int): (v: int)
    ensures key in settings ==> v == settings[key]
    ensures key !in settings ==> v == default
  {
    if key in settings then settings[key] else default
  }

  /** PHP truthiness of an optional id argument: null and 0 are both "not
      given". */
  predicate Given(id: Option<nat>)
  {
    id.Some? && id.value != 0
  }

  // ---------------------------------------------------------------------
  // Strings: decimal rendering of ids and substring search
  // ---------------------------------------------------------------------

  predicate IsDigit(c: char)
  {
    '0' <= c <= '9'
  }

  predicate AllDigits(s: string)
  {
    forall i :: 0 <= i < |s| ==> IsDigit(s[i])
  }

  function DigitChar(d: nat): (c: char)
    requires d < 10
    ensures IsDigit(c)
    ensures c as int - '0' as int == d
  {
    "0123456789"[d]
  }

  /** The decimal string PHP produces when an integer id is concatenated. */
  function NatToString(n: nat): (s: string)
    ensures |s| > 0 && AllDigits(s)
    ensures |s| == 1 <==> n < 10
    decreases n
  {
    if n < 10 then [DigitChar(n)] else NatToString(n / 10) + [DigitChar(n % 10)]
  }

  /** Decimal rendering loses nothing: distinct ids give distinct strings. */
  lemma {:induction false} NatToStringInjective(a: nat, b: nat)
    requires NatToString(a) == NatToString(b)
    ensures a == b
    decreases a
  {
    var sa, sb := NatToString(a), NatToString(b);
    if a < 10 && b < 10 {
      assert DigitChar(a) == sa[0] == DigitChar(b);
    } else if a >= 10 && b >= 10 {
      assert sa[..|sa| - 1] == NatToString(a / 10);
      assert sb[..|sb| - 1] == NatToString(b / 10);
      NatToStringInjective(a / 10, b / 10);
      assert DigitChar(a % 10) == sa[|sa| - 1] == DigitChar(b % 10);
    }
  }

  /** `strpos($s, $needle) !== false`. */
  predicate Contains(s: string, needle: string)
    decreases |s|
  {
    (|needle| <= |s| && s[..|needle|] == needle) || (|s| > 0 && Contains(s[1..], needle))
  }

  /** A needle that starts with a non-digit can only occur in digits + tail
      inside the tail. */
  lemma {:induction false} ContainsAfterDigits(digits: string, tail: string, needle: string)
    requires AllDigits(digits)
    requires |needle| > 0 && !IsDigit(needle[0])
    ensures Contains(digits + tail, needle) <==> Contains(tail, needle)
    decreases |digits|
  {
    if |digits| > 0 {
      var s := digits + tail;
      assert s[0] == digits[0];
      assert !(|needle| <= |s| && s[..|needle|] == needle);
      assert s[1..] == digits[1..] + tail;
      ContainsAfterDigits(digits[1..], tail, needle);
    } else {
      assert digits + tail == tail;
    }
  }
}
