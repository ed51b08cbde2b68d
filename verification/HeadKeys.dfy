/** The text of head object keys (`object_key`, `key_parts` of `app/services/audit_witness.py`). */
module HeadKeys {
  import opened Records

  // ----- decimal numbers -----

  predicate IsDigit(c: char) {
    '0' <= c <= '9'
  }

  function DigitOf(n: nat): (c: char)
    requires n < 10
    ensures IsDigit(c) && DigitValue(c) == n
  {
    '0' + n as char
  }

  function DigitValue(c: char): nat
    requires IsDigit(c)
  {
    (c - '0') as nat
  }

  predicate AllDigits(s: string) {
    forall i :: 0 <= i < |s| ==> IsDigit(s[i])
  }

  /** `int(s)` for a string of digits. */
  function Value(s: string): nat
    requires AllDigits(s)
  {
    if s == "" then 0 else Value(s[..|s| - 1]) * 10 + DigitValue(s[|s| - 1])
  }

  /** `str(n)`. */
  function Decimal(n: nat): (s: string)
    ensures s != "" && AllDigits(s)
  {
    if n < 10 then [DigitOf(n)] else Decimal(n / 10) + [DigitOf(n % 10)]
  }

  function Power10(k: nat): nat {
    if k == 0 then 1 else 10 * Power10(k - 1)
  }

  /** The last `width` decimal digits of `n`, with leading zeros. */
  function Padded(n: nat, width: nat): (s: string)
    ensures |s| == width && AllDigits(s)
  {
    if width == 0 then "" else Padded(n / 10, width - 1) + [DigitOf(n % 10)]
  }

  lemma {:induction false} DecimalInverts(n: nat)
    ensures Value(Decimal(n)) == n
    ensures n > 0 ==> Decimal(n)[0] != '0'
  {
    var s := Decimal(n);
    if n < 10 {
      assert s[..0] == "";
    } else {
      DecimalInverts(n / 10);
      assert s[..|s| - 1] == Decimal(n / 10);
    }
  }

  /** A digit string without leading zero is the decimal form of its value. */
  lemma {:induction false} ValueInverts(s: string)
    requires s != "" && AllDigits(s) && s[0] != '0'
    ensures Decimal(Value(s)) == s && Value(s) > 0
  {
    var front := s[..|s| - 1];
    if front == "" {
      assert s == [s[0]];
    } else {
      ValueInverts(front);
      assert s == front + [s[|s| - 1]];
    }
  }

  lemma {:induction false} ValueBelow(s: string)
    requires AllDigits(s)
    ensures Value(s) < Power10(|s|)
  {
    if s != "" {
      ValueBelow(s[..|s| - 1]);
    }
  }

  lemma {:induction false} DecimalLength(n: nat, width: nat)
    requires 0 < width && n < Power10(width)
    ensures |Decimal(n)| <= width
  {
    if n >= 10 {
      assert Power10(width) == 10 * Power10(width - 1);
      if width == 1 {
        assert false;
      }
      DecimalLength(n / 10, width - 1);
    }
  }

  lemma {:induction false} PaddedInverts(n: nat, width: nat)
    requires n < Power10(width)
    ensures Value(Padded(n, width)) == n
  {
    if width > 0 {
      PaddedInverts(n / 10, width - 1);
      var s := Padded(n, width);
      assert s[..|s| - 1] == Padded(n / 10, width - 1);
    }
  }

  // ----- publication times -----

  /** A UTC time to the second, as `%Y-%m-%dT%H:%M:%SZ` writes it. */
  datatype Stamp = Stamp(year: nat, month: nat, day: nat, hour: nat, minute: nat, second: nat)

  predicate LeapYear(year: nat) {
    year % 4 == 0 && (year % 100 != 0 || year % 400 == 0)
  }

  function DaysIn(year: nat, month: nat): nat {
    if month == 2 then (if LeapYear(year) then 29 else 28)
    else if month in {4, 6, 9, 11} then 30 else 31
  }

  predicate ValidStamp(t: Stamp) {
    && 1000 <= t.year <= 9999 && 1 <= t.month <= 12 && 1 <= t.day <= DaysIn(t.year, t.month)
    && t.hour < 24 && t.minute < 60 && t.second < 60
  }

  /** One second later (`timedelta(seconds=1)`). */
  function NextSecond(t: Stamp): Stamp {
    if t.second < 59 then t.(second := t.second + 1)
    else if t.minute < 59 then t.(minute := t.minute + 1, second := 0)
    else if t.hour < 23 then t.(hour := t.hour + 1, minute := 0, second := 0)
    else if t.day < DaysIn(t.year, t.month) then t.(day := t.day + 1, hour := 0, minute := 0, second := 0)
    else if t.month < 12 then Stamp(t.year, t.month + 1, 1, 0, 0, 0)
    else Stamp(t.year + 1, 1, 1, 0, 0, 0)
  }

  /** Which times there are: the months' days of the Gregorian calendar, in years of four digits. */
  lemma ValidStampMeans(t: Stamp)
    ensures ValidStamp(t) <==>
            && 1000 <= t.year <= 9999 && 1 <= t.month <= 12 && t.hour <= 23 && t.minute <= 59 && t.second <= 59 && 1 <= t.day
            && var leap := (t.year % 4 == 0 && t.year % 100 != 0) || t.year % 400 == 0;
            t.day <= [31, if leap then 29 else 28, 31, 30, 31, 30, 31, 31, 30, 31, 30, 31][t.month - 1]
  {
  }

  const LAST_STAMP := Stamp(9999, 12, 31, 23, 59, 59)

  function SecondsLater(t: Stamp, n: nat): Stamp {
    if n == 0 then t else NextSecond(SecondsLater(t, n - 1))
  }

  /** The calendar order of times. */
  predicate Before(t: Stamp, u: Stamp) {
    if t.year != u.year then t.year < u.year
    else if t.month != u.month then t.month < u.month
    else if t.day != u.day then t.day < u.day
    else if t.hour != u.hour then t.hour < u.hour
    else if t.minute != u.minute then t.minute < u.minute else t.second < u.second
  }

  /** The next second is later and, except after the last representable one, again a time. */
  lemma NextSecondIsLater(t: Stamp)
    requires ValidStamp(t)
    ensures Before(t, NextSecond(t))
    ensures t != LAST_STAMP ==> ValidStamp(NextSecond(t))
  {
  }

  /** No time lies between: the next second is the earliest later one. */
  lemma NextSecondIsNext(t: Stamp, u: Stamp)
    requires ValidStamp(t) && ValidStamp(u)
    ensures !Before(t, t)
    ensures Before(t, u) ==> u == NextSecond(t) || Before(NextSecond(t), u)
  {
  }

  lemma {:induction false} SecondsLaterIsLater(t: Stamp, n: nat)
    requires n > 0 && forall i :: 0 <= i < n ==> ValidStamp(SecondsLater(t, i))
    ensures Before(t, SecondsLater(t, n))
  {
    assert ValidStamp(SecondsLater(t, n - 1));
    NextSecondIsLater(SecondsLater(t, n - 1));
    if n > 1 {
      SecondsLaterIsLater(t, n - 1);
    } else {
      assert SecondsLater(t, 0) == t;
    }
  }

  // ----- the key -----

  datatype HeadName = HeadName(chain: string, stamp: Stamp, id: nat)

  predicate Hex16(s: string) {
    |s| == 16 && forall i :: 0 <= i < 16 ==> IsHexDigit(s[i])
  }

  predicate ValidName(h: HeadName) {
    Hex16(h.chain) && ValidStamp(h.stamp) && 1 <= h.id < Power10(19)
  }

  function DateText(t: Stamp): (s: string)
    ensures |s| == 11
  {
    Padded(t.year, 4) + "/" + Padded(t.month, 2) + "/" + Padded(t.day, 2) + "/"
  }

  function TimeText(t: Stamp): (s: string)
    ensures |s| == 16
  {
    Padded(t.year, 4) + Padded(t.month, 2) + Padded(t.day, 2) + "T"
    + Padded(t.hour, 2) + Padded(t.minute, 2) + Padded(t.second, 2) + "Z"
  }

  /** The part of the key that has a fixed width: the chain id, the date directories and the time. */
  function FixedPart(h: HeadName): string {
    "chain-heads/" + h.chain + "/" + DateText(h.stamp) + TimeText(h.stamp) + "-"
  }

  /** `object_key`. */
  function ObjectKey(h: HeadName): string {
    FixedPart(h) + Decimal(h.id) + ".json"
  }

  predicate FixedPartMatches(s: string)
    requires |s| == 57
  {
    && s[..12] == "chain-heads/" && Hex16(s[12..28]) && s[28] == '/' && AllDigits(s[29..33]) && s[33] == '/'
    && AllDigits(s[34..36]) && s[36] == '/' && AllDigits(s[37..39]) && s[39] == '/'
    && AllDigits(s[40..48]) && s[48] == 'T' && AllDigits(s[49..55]) && s[55] == 'Z' && s[56] == '-'
  }

  /** `[1-9]\d{0,18}`. */
  predicate IdMatches(s: string) {
    1 <= |s| <= 19 && AllDigits(s) && s[0] != '0'
  }

  /** What follows the fixed part, without `.json`; `$` also matches before one final newline. */
  function IdText(rest: string): Option<string> {
    if |rest| >= 6 && rest[|rest| - 6..] == ".json\n" then Some(rest[..|rest| - 6])
    else if |rest| >= 5 && rest[|rest| - 5..] == ".json" then Some(rest[..|rest| - 5])
    else None
  }

  /** `key_parts`: the chain id and row id of a key of the head form. */
  function KeyParts(key: string): Option<(string, nat)> {
    if |key| < 57 || !FixedPartMatches(key[..57]) then None
    else
      var id := IdText(key[57..]);
      if id.Some? && IdMatches(id.value) then Some((key[12..28], Value(id.value))) else None
  }

  // ----- the key determines the head, and the head the key -----

  lemma DateTextMatches(t: Stamp)
    ensures var s := DateText(t); AllDigits(s[..4]) && s[4] == '/' && AllDigits(s[5..7]) && s[7] == '/' && AllDigits(s[8..10]) && s[10] == '/'
    ensures var s := DateText(t); s[..4] == Padded(t.year, 4) && s[5..7] == Padded(t.month, 2) && s[8..10] == Padded(t.day, 2)
  {
    var s := DateText(t);
    assert s[..4] == Padded(t.year, 4) && s[5..7] == Padded(t.month, 2) && s[8..10] == Padded(t.day, 2);
  }

  lemma TimeTextMatches(t: Stamp)
    ensures var s := TimeText(t);
            AllDigits(s[..8]) && s[8] == 'T' && AllDigits(s[9..15]) && s[15] == 'Z'
    ensures var s := TimeText(t);
            && s[..4] == Padded(t.year, 4) && s[4..6] == Padded(t.month, 2) && s[6..8] == Padded(t.day, 2)
            && s[9..11] == Padded(t.hour, 2) && s[11..13] == Padded(t.minute, 2) && s[13..15] == Padded(t.second, 2)
  {
    var s := TimeText(t);
    assert s[..8] == Padded(t.year, 4) + Padded(t.month, 2) + Padded(t.day, 2);
    assert s[9..15] == Padded(t.hour, 2) + Padded(t.minute, 2) + Padded(t.second, 2);
  }

  lemma FixedPartParts(h: HeadName)
    requires Hex16(h.chain)
    ensures var s := FixedPart(h);
            |s| == 57 && s[..12] == "chain-heads/" && s[12..28] == h.chain && s[28] == '/'
            && s[29..40] == DateText(h.stamp) && s[40..56] == TimeText(h.stamp) && s[56] == '-'
    ensures FixedPartMatches(FixedPart(h))
  {
    var s, d, u := FixedPart(h), DateText(h.stamp), TimeText(h.stamp);
    assert s[29..40] == d && s[40..56] == u;
    DateTextMatches(h.stamp);
    TimeTextMatches(h.stamp);
    assert s[29..33] == d[..4] && s[33] == d[4] && s[34..36] == d[5..7] && s[36] == d[7] && s[37..39] == d[8..10] && s[39] == d[10];
    assert s[40..48] == u[..8] && s[48] == u[8] && s[49..55] == u[9..15] && s[55] == u[15];
  }

  lemma DateTextMeans(t: Stamp)
    requires ValidStamp(t)
    ensures var s := DateText(t);
            && AllDigits(s[..4]) && Value(s[..4]) == t.year && s[4] == '/'
            && AllDigits(s[5..7]) && Value(s[5..7]) == t.month && s[7] == '/'
            && AllDigits(s[8..10]) && Value(s[8..10]) == t.day && s[10] == '/'
  {
    DateTextMatches(t);
    assert Power10(2) == 10 * Power10(1) == 100 && Power10(4) == 10 * Power10(3) == 10_000;
    PaddedInverts(t.year, 4);
    PaddedInverts(t.month, 2);
    PaddedInverts(t.day, 2);
  }

  lemma TimeTextMeans(t: Stamp)
    requires ValidStamp(t)
    ensures var s := TimeText(t);
            && AllDigits(s[..4]) && Value(s[..4]) == t.year && AllDigits(s[4..6]) && Value(s[4..6]) == t.month
            && AllDigits(s[6..8]) && Value(s[6..8]) == t.day && s[8] == 'T'
            && AllDigits(s[9..11]) && Value(s[9..11]) == t.hour && AllDigits(s[11..13]) && Value(s[11..13]) == t.minute
            && AllDigits(s[13..15]) && Value(s[13..15]) == t.second && s[15] == 'Z'
  {
    TimeTextMatches(t);
    assert Power10(2) == 10 * Power10(1) == 100 && Power10(4) == 10 * Power10(3) == 10_000;
    PaddedInverts(t.year, 4);
    PaddedInverts(t.month, 2);
    PaddedInverts(t.day, 2);
    PaddedInverts(t.hour, 2);
    PaddedInverts(t.minute, 2);
    PaddedInverts(t.second, 2);
  }

  /** The key, spelled out: the chain id, directories for year, month and day, the time, and the row id. */
  lemma ObjectKeySpells(h: HeadName) returns (date: string, time: string, id: string)
    requires ValidName(h)
    ensures ObjectKey(h) == "chain-heads/" + h.chain + "/" + date + time + "-" + id + ".json"
    ensures && |date| == 11 && AllDigits(date[..4]) && Value(date[..4]) == h.stamp.year && date[4] == '/'
            && AllDigits(date[5..7]) && Value(date[5..7]) == h.stamp.month && date[7] == '/'
            && AllDigits(date[8..10]) && Value(date[8..10]) == h.stamp.day && date[10] == '/'
    ensures && |time| == 16 && AllDigits(time[..4]) && Value(time[..4]) == h.stamp.year
            && AllDigits(time[4..6]) && Value(time[4..6]) == h.stamp.month && AllDigits(time[6..8]) && Value(time[6..8]) == h.stamp.day
            && time[8] == 'T' && AllDigits(time[9..11]) && Value(time[9..11]) == h.stamp.hour
            && AllDigits(time[11..13]) && Value(time[11..13]) == h.stamp.minute
            && AllDigits(time[13..15]) && Value(time[13..15]) == h.stamp.second && time[15] == 'Z'
    ensures id != "" && AllDigits(id) && id[0] != '0' && Value(id) == h.id
  {
    date, time, id := DateText(h.stamp), TimeText(h.stamp), Decimal(h.id);
    DateTextMeans(h.stamp);
    TimeTextMeans(h.stamp);
    DecimalInverts(h.id);
    assert ObjectKey(h) == "chain-heads/" + h.chain + "/" + date + time + "-" + (id + ".json");
  }

  /** `key_parts` inverts `object_key`: the chain id and the row id come back. */
  lemma KeyPartsInvertsObjectKey(h: HeadName)
    requires ValidName(h)
    ensures KeyParts(ObjectKey(h)) == Some((h.chain, h.id))
  {
    FixedPartParts(h);
    var key, id := ObjectKey(h), Decimal(h.id);
    assert key[..57] == FixedPart(h) && key[57..] == id + ".json";
    assert key[12..28] == FixedPart(h)[12..28];
    var rest := id + ".json";
    assert rest[|rest| - 5..] == ".json" && rest[..|rest| - 5] == id;
    assert rest[|rest| - 1] == 'n';
    DecimalInverts(h.id);
    DecimalLength(h.id, 19);
  }

  /** Which texts are keys of the head form, character by character, and what is read of them: the chain id of sixteen
      hexadecimal digits and a row id without leading zero; one final newline passes. */
  lemma KeyPartsMeans(key: string, chain: string, id: nat)
    ensures KeyParts(key) == Some((chain, id)) <==>
            && |key| >= 57 && key[..12] == "chain-heads/" && key[12..28] == chain && Hex16(chain) && key[28] == '/'
            && AllDigits(key[29..33]) && key[33] == '/' && AllDigits(key[34..36]) && key[36] == '/' && AllDigits(key[37..39])
            && key[39] == '/' && AllDigits(key[40..48]) && key[48] == 'T' && AllDigits(key[49..55]) && key[55] == 'Z' && key[56] == '-'
            && 1 <= id < Power10(19) && (key[57..] == Decimal(id) + ".json" || key[57..] == Decimal(id) + ".json\n")
  {
    if |key| >= 57 {
      FixedPartIs(key);
      IdPartIs(key[57..], id);
    }
    hide FixedPartMatches, Hex16, IdText, IdMatches, Value, Decimal, Power10;
  }

  lemma FixedPartIs(key: string)
    requires |key| >= 57
    ensures FixedPartMatches(key[..57]) <==>
            && key[..12] == "chain-heads/" && Hex16(key[12..28]) && key[28] == '/'
            && AllDigits(key[29..33]) && key[33] == '/' && AllDigits(key[34..36]) && key[36] == '/' && AllDigits(key[37..39])
            && key[39] == '/' && AllDigits(key[40..48]) && key[48] == 'T' && AllDigits(key[49..55]) && key[55] == 'Z' && key[56] == '-'
  {
    var s := key[..57];
    assert s[..12] == key[..12] && s[12..28] == key[12..28] && s[29..33] == key[29..33] && s[34..36] == key[34..36];
    assert s[37..39] == key[37..39] && s[40..48] == key[40..48] && s[49..55] == key[49..55];
  }

  lemma IdPartIs(rest: string, id: nat)
    ensures IdText(rest).Some? && IdMatches(IdText(rest).value) && Value(IdText(rest).value) == id <==>
            1 <= id < Power10(19) && (rest == Decimal(id) + ".json" || rest == Decimal(id) + ".json\n")
  {
    if IdText(rest).Some? && IdMatches(IdText(rest).value) && Value(IdText(rest).value) == id {
      var text := IdText(rest).value;
      IdTextIs(rest);
      ValueInverts(text);
      ValueBelow(text);
      PowerGrows(|text|, 19);
    }
    if 1 <= id < Power10(19) && (rest == Decimal(id) + ".json" || rest == Decimal(id) + ".json\n") {
      var text := Decimal(id);
      DecimalInverts(id);
      DecimalLength(id, 19);
      TextIsId(text);
    }
  }

  lemma TextIsId(text: string)
    ensures IdText(text + ".json") == IdText(text + ".json\n") == Some(text)
  {
    var a, b := text + ".json", text + ".json\n";
    assert a[|a| - 5..] == ".json" && a[..|a| - 5] == text && a[|a| - 1] == 'n';
    assert b[|b| - 6..] == ".json\n" && b[..|b| - 6] == text;
  }

  lemma IdTextIs(rest: string)
    requires IdText(rest).Some?
    ensures rest == IdText(rest).value + ".json" || rest == IdText(rest).value + ".json\n"
  {
    var n := |IdText(rest).value|;
    assert rest == rest[..n] + rest[n..];
  }

  lemma {:induction false} PowerGrows(a: nat, b: nat)
    requires a <= b
    ensures Power10(a) <= Power10(b)
  {
    if a < b {
      PowerGrows(a, b - 1);
    }
  }

  lemma PaddedIsInjective(m: nat, n: nat, width: nat)
    requires m < Power10(width) && n < Power10(width) && Padded(m, width) == Padded(n, width)
    ensures m == n
  {
    PaddedInverts(m, width);
    PaddedInverts(n, width);
  }

  /** Different heads, or the same head a second later, have different keys. */
  lemma ObjectKeyIsInjective(g: HeadName, h: HeadName)
    requires ValidName(g) && ValidName(h) && ObjectKey(g) == ObjectKey(h)
    ensures g == h
  {
    KeyPartsInvertsObjectKey(g);
    KeyPartsInvertsObjectKey(h);
    FixedPartParts(g);
    FixedPartParts(h);
    assert ObjectKey(g)[..57] == FixedPart(g) && ObjectKey(h)[..57] == FixedPart(h);
    SameTimeText(g.stamp, h.stamp);
  }

  lemma SameTimeText(t: Stamp, u: Stamp)
    requires ValidStamp(t) && ValidStamp(u) && TimeText(t) == TimeText(u)
    ensures t == u
  {
    TimeTextMatches(t);
    TimeTextMatches(u);
    assert Power10(2) == 10 * Power10(1) == 100 && Power10(4) == 10 * Power10(3) == 10_000;
    PaddedIsInjective(t.year, u.year, 4);
    PaddedIsInjective(t.month, u.month, 2);
    PaddedIsInjective(t.day, u.day, 2);
    PaddedIsInjective(t.hour, u.hour, 2);
    PaddedIsInjective(t.minute, u.minute, 2);
    PaddedIsInjective(t.second, u.second, 2);
  }

  /** Each retry of `publish_head` tries a key it has not tried before, of the same chain and row. */
  lemma RetryKeysAreFresh(h: HeadName, n: nat)
    requires ValidName(h) && n > 0 && forall i :: 0 <= i <= n ==> ValidStamp(SecondsLater(h.stamp, i))
    ensures var later := h.(stamp := SecondsLater(h.stamp, n));
            ObjectKey(later) != ObjectKey(h) && KeyParts(ObjectKey(later)) == KeyParts(ObjectKey(h))
  {
    var later := h.(stamp := SecondsLater(h.stamp, n));
    SecondsLaterIsLater(h.stamp, n);
    KeyPartsInvertsObjectKey(h);
    KeyPartsInvertsObjectKey(later);
    if ObjectKey(later) == ObjectKey(h) {
      ObjectKeyIsInjective(later, h);
    }
  }
}
