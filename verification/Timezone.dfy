/** The TZUTC offset: a sign only west of UTC, then hours and minutes. */
module Timezone {
  import opened Wrappers
  import opened DateTime

  function Format(offset: int): Option<string> {
    if offset % 60 != 0 then None
    else
      var minutes := offset / 60;
      var absolute := if minutes < 0 then -minutes else minutes;
      if absolute / 60 > 99 then None
      else Some((if minutes < 0 then "-" else "") + TwoDigits(absolute / 60) + TwoDigits(absolute % 60))
  }

  function Parse(value: string): Option<int> {
    var west := "-" <= value;
    var digits := if west then value[1..] else value;
    if |digits| != 4 then None
    else
      var hours, minutes := ReadNumber(digits[..2]), ReadNumber(digits[2..]);
      if hours.None? || minutes.None? || minutes.value >= 60 then None
      else Some((if west then -1 else 1) * (hours.value * 3600 + minutes.value * 60))
  }

  lemma ParseOfFormat(offset: int)
    requires Format(offset).Some?
    ensures Parse(Format(offset).value) == Some(offset) && Visible(Format(offset).value)
  {
    hide ReadNumber;
    var minutes := offset / 60;
    var absolute := if minutes < 0 then -minutes else minutes;
    var digits := TwoDigits(absolute / 60) + TwoDigits(absolute % 60);
    NumberBack(absolute / 60);
    NumberBack(absolute % 60);
    var s := Format(offset).value;
    assert digits[..2] == TwoDigits(absolute / 60) && digits[2..] == TwoDigits(absolute % 60);
    if minutes < 0 {
      assert s[0] == '-' && s[1..] == digits;
    } else {
      assert s == digits && s[0] != '-';
    }
  }

  lemma FormatOfParse(s: string)
    requires Parse(s).Some?
    ensures Format(Parse(s).value) == Some(s) || (s == "-0000" && Parse(s).value == 0)
  {
    hide Format, ReadNumber;
    var west := "-" <= s;
    var digits := if west then s[1..] else s;
    var hours, minutes := ReadNumber(digits[..2]).value, ReadNumber(digits[2..]).value;
    NumberOnly(digits[..2]);
    NumberOnly(digits[2..]);
    assert digits == TwoDigits(hours) + TwoDigits(minutes);
    assert s == (if west then "-" else "") + digits;
    if west && hours == 0 && minutes == 0 { assert digits == "0000"; } else { FormatMinutes(west, hours, minutes); }
    assert s == (if west then "-" else "") + TwoDigits(hours) + TwoDigits(minutes);
  }

  lemma FormatMinutes(west: bool, hours: int, minutes: int)
    requires 0 <= hours < 100 && 0 <= minutes < 60 && (west ==> hours + minutes > 0)
    ensures Format((if west then -1 else 1) * (hours * 3600 + minutes * 60))
      == Some((if west then "-" else "") + TwoDigits(hours) + TwoDigits(minutes))
  {
    hide TwoDigits;
    var absolute := hours * 60 + minutes;
    assert absolute / 60 == hours && absolute % 60 == minutes;
    var offset := (if west then -1 else 1) * (hours * 3600 + minutes * 60);
    assert offset == 60 * (if west then -absolute else absolute);
  }

  /** Every offset that has a text is read back from it, and only a minus before zero is read without being written. */
  lemma TimezoneRoundTrip(s: string, offset: int)
    ensures Parse(s) == Some(offset) <==> Format(offset) == Some(s) || (s == "-0000" && offset == 0)
  {
    hide Format;
    if Parse(s) == Some(offset) { FormatOfParse(s); }
    if Format(offset) == Some(s) { ParseOfFormat(offset); }
    if s == "-0000" {
      assert s[1..] == "0000" && s[1..][..2] == "00" && s[1..][2..] == "00";
    }
  }
}
