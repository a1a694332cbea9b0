/** The conversion of a date as `Date.prototype.toDateString` prints it ("Wed Nov 13 2025")
    into the ISO form "2025-11-13". A field the input lacks, and a month name outside the
    table, come out as JavaScript prints `undefined`. */
module IsoDate {
  import opened Wrappers

  /** What a template literal prints for a missing value. */
  const Undefined: string := "undefined"

  /** `s.split(' ')`: the pieces between single spaces, empty pieces included, and `[""]`
      for the empty string. */
  function Split(s: string): (parts: seq<string>)
    ensures |parts| >= 1
    decreases |s|
  {
    if s == [] then [""]
    else
      var rest := Split(s[1..]);
      if s[0] == ' ' then [""] + rest else [[s[0]] + rest[0]] + rest[1..]
  }

  /** `parts.join(' ')`. */
  function Join(parts: seq<string>): string
    decreases |parts|
  {
    if parts == [] then ""
    else if |parts| == 1 then parts[0]
    else parts[0] + " " + Join(parts[1..])
  }

  ghost predicate SpaceFree(s: string) {
    forall i :: 0 <= i < |s| ==> s[i] != ' '
  }

  /** Joining a piece in front of at least one more puts a space between them. */
  lemma JoinCons(head: string, rest: seq<string>)
    requires |rest| >= 1
    ensures Join([head] + rest) == head + " " + Join(rest)
  {
    assert ([head] + rest)[1..] == rest;
  }

  lemma PrependToSpaced(c: char, a: string, b: string)
    ensures ([c] + a) + " " + b == [c] + (a + " " + b)
  {
  }

  /** A character put in front of the first piece comes first in the join. */
  lemma JoinPrependChar(c: char, parts: seq<string>)
    requires |parts| >= 1
    ensures Join([[c] + parts[0]] + parts[1..]) == [c] + Join(parts)
  {
    var first, tail := [c] + parts[0], parts[1..];
    assert parts == [parts[0]] + tail;
    if tail != [] {
      JoinCons(first, tail);
      JoinCons(parts[0], tail);
      PrependToSpaced(c, parts[0], Join(tail));
    } else {
      assert [first] + tail == [first];
    }
  }

  /** Splitting loses nothing: joining the pieces again gives back the input. */
  lemma {:induction false} JoinSplit(s: string)
    ensures Join(Split(s)) == s
    decreases |s|
  {
    if s != [] {
      var rest := Split(s[1..]);
      JoinSplit(s[1..]);
      if s[0] == ' ' {
        JoinCons("", rest);
        assert Join(Split(s)) == " " + s[1..];
      } else {
        JoinPrependChar(s[0], rest);
        assert Join(Split(s)) == [s[0]] + s[1..];
      }
      assert s == [s[0]] + s[1..];
    }
  }

  /** No piece of a split holds a space. */
  lemma {:induction false} SplitSpaceFree(s: string)
    ensures forall i :: 0 <= i < |Split(s)| ==> SpaceFree(Split(s)[i])
    decreases |s|
  {
    if s != [] {
      var rest := Split(s[1..]);
      SplitSpaceFree(s[1..]);
      if s[0] == ' ' {
        assert Split(s) == [""] + rest;
        forall i | 0 < i < |Split(s)| ensures SpaceFree(Split(s)[i]) {
          assert Split(s)[i] == rest[i - 1];
        }
      } else {
        var parts := [[s[0]] + rest[0]] + rest[1..];
        assert Split(s) == parts;
        forall i | 0 <= i < |parts| ensures SpaceFree(parts[i]) {
          if i == 0 {
            forall j | 0 <= j < |parts[0]| ensures parts[0][j] != ' ' {
              if j > 0 {
                assert parts[0][j] == rest[0][j - 1];
              }
            }
          } else {
            assert parts[i] == rest[i];
          }
        }
      }
    }
  }

  /** Splitting the join of space-free pieces gives back the pieces. */
  lemma {:induction false} SplitJoin(parts: seq<string>)
    requires |parts| >= 1
    requires forall i :: 0 <= i < |parts| ==> SpaceFree(parts[i])
    ensures Split(Join(parts)) == parts
    decreases |parts|, |parts[0]|
  {
    var head := parts[0];
    if head == [] {
      if |parts| > 1 {
        var rest := parts[1..];
        SplitJoin(rest);
        JoinCons(head, rest);
        var s := " " + Join(rest);
        assert Join(parts) == s;
        assert s[1..] == Join(rest);
        assert parts == [""] + rest;
      }
    } else {
      var shorter := [head[1..]] + parts[1..];
      forall i | 0 <= i < |shorter| ensures SpaceFree(shorter[i]) {
        if i == 0 {
          forall j | 0 <= j < |head[1..]| ensures head[1..][j] != ' ' {
            assert head[1..][j] == head[j + 1];
          }
        } else {
          assert shorter[i] == parts[i];
        }
      }
      SplitJoin(shorter);
      JoinPrependChar(head[0], shorter);
      assert [head[0]] + head[1..] == head;
      assert [head] + parts[1..] == parts;
      var s := Join(parts);
      assert s == [head[0]] + Join(shorter);
      assert s[0] != ' ';
      assert s[1..] == Join(shorter);
    }
  }

  /** `parts[i]`: the piece at index `i`, or nothing past the end. */
  function Field(parts: seq<string>, i: nat): Option<string> {
    if i < |parts| then Some(parts[i]) else None
  }

  /** How a template literal or `String(...)` prints a value that may be missing. */
  function Show(v: Option<string>): string {
    if v.Some? then v.value else Undefined
  }

  /** The month names `toDateString` prints, January first. */
  const MonthNames: seq<string> := ["Jan", "Feb", "Mar", "Apr", "May", "Jun",
                                    "Jul", "Aug", "Sep", "Oct", "Nov", "Dec"]

  /** The month table: each month name to its two-digit number. */
  const Months: map<string, string> := map[
    "Jan" := "01", "Feb" := "02", "Mar" := "03", "Apr" := "04", "May" := "05", "Jun" := "06",
    "Jul" := "07", "Aug" := "08", "Sep" := "09", "Oct" := "10", "Nov" := "11", "Dec" := "12"]

  /** The two-digit decimal form of a month number 1..12. */
  function TwoDigits(n: nat): string
    requires n < 100
  {
    [('0' as int + n / 10) as char, ('0' as int + n % 10) as char]
  }

  /** `months[name]`: the month number of a name in the table, nothing otherwise. */
  function MonthCode(name: Option<string>): Option<string> {
    if name.Some? && name.value in Months then Some(Months[name.value]) else None
  }

  /** The table maps the i-th month name to the two-digit form of i, counting from 1. */
  lemma MonthNumbers()
    ensures forall i :: 0 <= i < 12 ==> MonthCode(Some(MonthNames[i])) == Some(TwoDigits(i + 1))
  {
    forall i | 0 <= i < 12 ensures MonthCode(Some(MonthNames[i])) == Some(TwoDigits(i + 1)) {
      if i == 0 { assert Months[MonthNames[0]] == TwoDigits(1); }
      else if i == 1 { assert Months[MonthNames[1]] == TwoDigits(2); }
      else if i == 2 { assert Months[MonthNames[2]] == TwoDigits(3); }
      else if i == 3 { assert Months[MonthNames[3]] == TwoDigits(4); }
      else if i == 4 { assert Months[MonthNames[4]] == TwoDigits(5); }
      else if i == 5 { assert Months[MonthNames[5]] == TwoDigits(6); }
      else if i == 6 { assert Months[MonthNames[6]] == TwoDigits(7); }
      else if i == 7 { assert Months[MonthNames[7]] == TwoDigits(8); }
      else if i == 8 { assert Months[MonthNames[8]] == TwoDigits(9); }
      else if i == 9 { assert Months[MonthNames[9]] == TwoDigits(10); }
      else if i == 10 { assert Months[MonthNames[10]] == TwoDigits(11); }
      else { assert Months[MonthNames[11]] == TwoDigits(12); }
    }
  }

  /** The table knows the twelve month names and nothing else. */
  lemma MonthNamesOnly(name: string)
    ensures MonthCode(Some(name)).Some? <==> name in MonthNames
  {
    if name in MonthNames {
      var i :| 0 <= i < 12 && MonthNames[i] == name;
      MonthNumbers();
    }
    if name in Months {
      assert name == MonthNames[0] || name == MonthNames[1] || name == MonthNames[2]
          || name == MonthNames[3] || name == MonthNames[4] || name == MonthNames[5]
          || name == MonthNames[6] || name == MonthNames[7] || name == MonthNames[8]
          || name == MonthNames[9] || name == MonthNames[10] || name == MonthNames[11];
    }
  }

  /** No month name holds a space. */
  lemma MonthNamesSpaceFree(m: nat)
    requires m < 12
    ensures SpaceFree(MonthNames[m])
  {
    assert |MonthNames[m]| == 3;
  }

  /** `n` copies of `c`. */
  function Repeat(c: char, n: nat): seq<char> {
    if n == 0 then [] else [c] + Repeat(c, n - 1)
  }

  /** `s.padStart(width, fill)` for a single fill character: `s` with copies of `fill` in
      front until it is `width` long; a string already that long stays as it is. */
  function PadStart(s: string, width: nat, fill: char): (r: string)
    ensures |r| == if |s| >= width then |s| else width
    ensures r[|r| - |s|..] == s
    ensures forall i :: 0 <= i < |r| - |s| ==> r[i] == fill
  {
    if |s| >= width then s else RepeatShape(fill, width - |s|); Repeat(fill, width - |s|) + s
  }

  lemma {:induction false} RepeatShape(c: char, n: nat)
    ensures |Repeat(c, n)| == n
    ensures forall i :: 0 <= i < n ==> Repeat(c, n)[i] == c
  {
    if n > 0 {
      RepeatShape(c, n - 1);
      assert forall i :: 1 <= i < n ==> Repeat(c, n)[i] == Repeat(c, n - 1)[i - 1];
    }
  }

  /** The ISO form of a `toDateString` date: the year (piece 3), then the month number of
      piece 1, then the day (piece 2) padded with '0' to two characters, joined by '-'. */
  function DateStringToISO(dateStr: string): string {
    var parts := Split(dateStr);
    var month := MonthCode(Field(parts, 1));
    var day := PadStart(Show(Field(parts, 2)), 2, '0');
    Show(Field(parts, 3)) + "-" + Show(month) + "-" + day
  }

  /** For a date written as space-separated pieces (weekday, month name, day, year, and
      possibly more), the result is the year, the month's number and the padded day. */
  lemma ISOOfFields(parts: seq<string>, m: nat)
    requires |parts| >= 4 && m < 12 && parts[1] == MonthNames[m]
    requires forall i :: 0 <= i < |parts| ==> SpaceFree(parts[i])
    ensures DateStringToISO(Join(parts))
         == parts[3] + "-" + TwoDigits(m + 1) + "-" + PadStart(parts[2], 2, '0')
  {
    SplitJoin(parts);
    MonthNumbers();
  }

  /** The form `toDateString` prints, "Www Mmm DD YYYY", becomes "YYYY-MM-DD". */
  lemma ISOOfDateString(weekday: string, m: nat, day: string, year: string)
    requires m < 12
    requires SpaceFree(weekday) && SpaceFree(day) && SpaceFree(year)
    ensures DateStringToISO(weekday + " " + MonthNames[m] + " " + day + " " + year)
         == year + "-" + TwoDigits(m + 1) + "-" + PadStart(day, 2, '0')
  {
    var parts := [weekday, MonthNames[m], day, year];
    MonthNamesSpaceFree(m);
    assert Join(parts) == weekday + " " + MonthNames[m] + " " + day + " " + year by {
      var tail2, tail3 := [day, year], [MonthNames[m], day, year];
      assert Join(tail2) == day + " " + year by {
        assert tail2[1..] == [year];
      }
      assert Join(tail3) == MonthNames[m] + " " + Join(tail2) by {
        assert tail3[1..] == tail2;
      }
      assert parts[1..] == tail3;
    }
    ISOOfFields(parts, m);
  }

  /** A month name outside the table prints as `undefined` in the month's place. */
  lemma UnknownMonth(parts: seq<string>)
    requires |parts| >= 4 && parts[1] !in MonthNames
    requires forall i :: 0 <= i < |parts| ==> SpaceFree(parts[i])
    ensures DateStringToISO(Join(parts)) == parts[3] + "-" + Undefined + "-" + PadStart(parts[2], 2, '0')
  {
    SplitJoin(parts);
    MonthNamesOnly(parts[1]);
  }

  /** With fewer than four pieces there is no year, and it prints as `undefined`; a missing
      day prints as `undefined` too, which is already longer than two characters. */
  lemma MissingFields(parts: seq<string>)
    requires 1 <= |parts| < 4
    requires forall i :: 0 <= i < |parts| ==> SpaceFree(parts[i])
    ensures DateStringToISO(Join(parts))
         == Undefined + "-" + Show(MonthCode(Field(parts, 1))) + "-"
            + (if |parts| == 3 then PadStart(parts[2], 2, '0') else Undefined)
  {
    SplitJoin(parts);
  }
}
