/** The text of an `/add_birthday` command, as the pattern
    `^/add_birthday[^\s]*\s+(\d{2})\.(\d{2})(.(\d{4}))?\s+(.*)` of
    src/components/bot/impl/component.cpp reads it under `std::regex_match`
    (ECMAScript grammar): `\s` is one of the six C whitespace characters and
    `.` is any character but a line feed or a carriage return. */
module AddCommand {
  import opened Wrappers
  import opened Format

  predicate IsSpace(c: char) {
    c == ' ' || c == '\t' || c == '\n' || c == '\r' || c == 11 as char || c == 12 as char
  }

  predicate IsLineBreak(c: char) {
    c == '\n' || c == '\r'
  }

  predicate NoLineBreak(s: string) {
    forall k :: 0 <= k < |s| ==> !IsLineBreak(s[k])
  }

  /** The end of the run of non-space characters starting at i. */
  function SkipNonSpace(s: string, i: int): (j: int)
    requires 0 <= i <= |s|
    ensures i <= j <= |s|
    ensures forall k :: i <= k < j ==> !IsSpace(s[k])
    ensures j < |s| ==> IsSpace(s[j])
    decreases |s| - i
  {
    if i == |s| || IsSpace(s[i]) then i else SkipNonSpace(s, i + 1)
  }

  /** The end of the run of space characters starting at i. */
  function SkipSpace(s: string, i: int): (j: int)
    requires 0 <= i <= |s|
    ensures i <= j <= |s|
    ensures forall k :: i <= k < j ==> IsSpace(s[k])
    ensures j < |s| ==> !IsSpace(s[j])
    decreases |s| - i
  {
    if i == |s| || !IsSpace(s[i]) then i else SkipSpace(s, i + 1)
  }

  const Command := "/add_birthday"

  /** The captured groups: day, month, optional year (as `std::stoi` reads
      them) and the person's name. */
  datatype AddRequest = AddRequest(day: int, month: int, year: Option<int>, person: string)

  /** `\s+(.*)` matching all of s from k: at least one space, then the rest of
      the text, which may not hold a line break. Greedy `\s+` leaves the name
      without leading spaces. */
  function NameFrom(s: string, k: int): (r: Option<string>)
    requires 0 <= k <= |s|
    ensures r.Some? ==> NoLineBreak(r.value) && (r.value == [] || !IsSpace(r.value[0]))
  {
    var p := SkipSpace(s, k);
    if p > k && NoLineBreak(s[p..]) then Some(s[p..]) else None
  }

  /** `(\d{2})\.(\d{2})` at position j. */
  predicate DateAt(s: string, j: int) {
    0 <= j && j + 5 <= |s| && IsDigit(s[j]) && IsDigit(s[j + 1]) && s[j + 2] == '.' && IsDigit(s[j + 3]) && IsDigit(s[j + 4])
  }

  /** `(.(\d{4}))` at position k, followed by a matching name. */
  predicate YearAt(s: string, k: int) {
    0 <= k && k + 5 <= |s| && !IsLineBreak(s[k]) && AllDigits(s[k + 1..k + 5]) && NameFrom(s, k + 5).Some?
  }

  /** What follows `(\d{2})\.(\d{2})`, from position k: the year group when
      the rest still matches after it, otherwise the pattern backtracks to
      no year. */
  function AfterDate(text: string, k: int, day: int, month: int): (r: Option<AddRequest>)
    requires 0 <= k <= |text|
    ensures r.Some? ==> r.value.day == day && r.value.month == month
    ensures r.Some? ==> NoLineBreak(r.value.person) && (r.value.person == [] || !IsSpace(r.value.person[0]))
  {
    if YearAt(text, k) then Some(AddRequest(day, month, Some(DigitsValue(text[k + 1..k + 5])), NameFrom(text, k + 5).value))
    else if NameFrom(text, k).Some? then Some(AddRequest(day, month, None, NameFrom(text, k).value))
    else None
  }

  /** The match of the whole pattern, or None when `regex_match` fails. The
      command word may carry a suffix (such as `@botname`) up to the first
      space. */
  function ParseAddBirthday(text: string): (r: Option<AddRequest>)
    ensures r.Some? ==> Command <= text
    ensures r.Some? ==> NoLineBreak(r.value.person) && (r.value.person == [] || !IsSpace(r.value.person[0]))
  {
    if !(Command <= text) then None
    else
      var i := SkipNonSpace(text, |Command|);
      var j := SkipSpace(text, i);
      if j == i || !DateAt(text, j) then None
      else AfterDate(text, j + 5, DigitsValue(text[j..j + 2]), DigitsValue(text[j + 3..j + 5]))
  }

  // ---------------------------------------------------------------------

  /** The prefix "/add_birthday " + dd.mm of a well-formed command. */
  lemma CommandPrefix(ds: string, ms: string, rest: string)
    requires |ds| == 2 && AllDigits(ds) && |ms| == 2 && AllDigits(ms)
    ensures var text := Command + " " + ds + "." + ms + rest;
            && Command <= text
            && SkipNonSpace(text, |Command|) == |Command|
            && SkipSpace(text, |Command|) == |Command| + 1
            && DateAt(text, |Command| + 1)
            && text[|Command| + 1..|Command| + 3] == ds
            && text[|Command| + 4..|Command| + 6] == ms
            && text[|Command| + 6..] == rest
  {
    var text := Command + " " + ds + "." + ms + rest;
    assert text[..|Command|] == Command;
    assert text[|Command| + 1..|Command| + 3] == ds;
    assert text[|Command| + 4..|Command| + 6] == ms;
    assert text[|Command| + 6..] == rest;
  }

  /** On a well-formed prefix the parse comes down to what follows the date. */
  lemma ParsePrefix(ds: string, ms: string, rest: string)
    requires |ds| == 2 && AllDigits(ds) && |ms| == 2 && AllDigits(ms)
    ensures ParseAddBirthday(Command + " " + ds + "." + ms + rest) ==
            AfterDate(Command + " " + ds + "." + ms + rest, |Command| + 6, DigitsValue(ds), DigitsValue(ms))
  {
    CommandPrefix(ds, ms, rest);
  }

  /** A single space followed by a name without leading space or line break
      matches `\s+(.*)` with exactly that name. */
  lemma NameAfterSpace(s: string, k: int, person: string)
    requires 0 <= k < |s| && s[k..] == " " + person
    requires NoLineBreak(person) && (person == [] || !IsSpace(person[0]))
    ensures NameFrom(s, k) == Some(person)
  {
    assert s[k] == ' ';
    assert SkipSpace(s, k + 1) == k + 1;
    assert s[k + 1..] == person;
  }

  /** The command as a user types it without a year: the day, month and name
      come back. The name may not start with a digit (a name starting with
      four digits would be taken for a year). */
  lemma ParseWithoutYear(ds: string, ms: string, person: string)
    requires |ds| == 2 && AllDigits(ds) && |ms| == 2 && AllDigits(ms)
    requires NoLineBreak(person) && (person == [] || (!IsSpace(person[0]) && !IsDigit(person[0])))
    ensures ParseAddBirthday(Command + " " + ds + "." + ms + " " + person) ==
            Some(AddRequest(DigitsValue(ds), DigitsValue(ms), None, person))
  {
    var text := Command + " " + ds + "." + ms + " " + person;
    var k := |Command| + 6;
    CommandPrefix(ds, ms, " " + person);
    assert text == Command + " " + ds + "." + ms + (" " + person);
    NameAfterSpace(text, k, person);
    if k + 5 <= |text| {
      assert text[k + 1] == person[0];
      assert !AllDigits(text[k + 1..k + 5]) by {
        assert text[k + 1..k + 5][0] == person[0];
      }
    }
  }

  /** A separator, four digits, a space and a name match the year group
      followed by the name. */
  lemma YearGroup(s: string, k: int, sep: char, ys: string, person: string)
    requires 0 <= k <= |s| && s[k..] == [sep] + ys + " " + person
    requires !IsLineBreak(sep) && |ys| == 4 && AllDigits(ys)
    requires NoLineBreak(person) && (person == [] || !IsSpace(person[0]))
    ensures YearAt(s, k) && s[k + 1..k + 5] == ys && NameFrom(s, k + 5) == Some(person)
  {
    assert s[k] == sep;
    assert s[k + 1..k + 5] == ys;
    assert s[k + 5..] == " " + person;
    NameAfterSpace(s, k + 5, person);
  }

  /** After the date, the year group and the name. */
  lemma AfterDateWithYear(s: string, k: int, sep: char, ys: string, person: string, day: int, month: int)
    requires 0 <= k <= |s| && s[k..] == [sep] + ys + " " + person
    requires !IsLineBreak(sep) && |ys| == 4 && AllDigits(ys)
    requires NoLineBreak(person) && (person == [] || !IsSpace(person[0]))
    ensures AfterDate(s, k, day, month) == Some(AddRequest(day, month, Some(DigitsValue(ys)), person))
  {
    YearGroup(s, k, sep, ys, person);
  }

  /** The command with a year after any separator character but a line
      break: day, month, year and name come back. */
  lemma ParseWithYear(ds: string, ms: string, sep: char, ys: string, person: string)
    requires |ds| == 2 && AllDigits(ds) && |ms| == 2 && AllDigits(ms)
    requires !IsLineBreak(sep) && |ys| == 4 && AllDigits(ys)
    requires NoLineBreak(person) && (person == [] || !IsSpace(person[0]))
    ensures ParseAddBirthday(Command + " " + ds + "." + ms + [sep] + ys + " " + person) ==
            Some(AddRequest(DigitsValue(ds), DigitsValue(ms), Some(DigitsValue(ys)), person))
  {
    var rest := [sep] + ys + " " + person;
    assert Command + " " + ds + "." + ms + [sep] + ys + " " + person == Command + " " + ds + "." + ms + rest;
    ParsePrefix(ds, ms, rest);
    CommandPrefix(ds, ms, rest);
    AfterDateWithYear(Command + " " + ds + "." + ms + rest, |Command| + 6, sep, ys, person, DigitsValue(ds), DigitsValue(ms));
  }

  /** Without a name there is no match, so the usage message is sent. */
  lemma NameRequired(ds: string, ms: string)
    requires |ds| == 2 && AllDigits(ds) && |ms| == 2 && AllDigits(ms)
    ensures ParseAddBirthday(Command + " " + ds + "." + ms) == None
  {
    var text := Command + " " + ds + "." + ms;
    CommandPrefix(ds, ms, "");
    assert text == Command + " " + ds + "." + ms + "";
  }
}
