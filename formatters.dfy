/** The table's display helpers: a phone number grouped as an Indian number,
    and the "n SRs" count of service requests. */
module Formatters {
  import opened Wrappers
  import opened Text
  import opened Numbers

  /** `formatPhone(phone)`: `-` for no number; a number whose digits are ten
      digits, or twelve starting with the country code 91, is shown as
      `+91 XXXXX XXXXX`; anything else is shown as given. */
  function FormatPhone(phone: string): string {
    if phone == "" then "-"
    else
      var cleaned := DigitsOnly(phone);
      if |cleaned| == 10 then "+91 " + cleaned[..5] + " " + cleaned[5..]
      else if |cleaned| == 12 && StartsWith(cleaned, "91") then
        "+" + cleaned[..2] + " " + cleaned[2..7] + " " + cleaned[7..]
      else phone
  }

  /** The ten national digits of a number `formatPhone` groups, if it does. */
  function National(phone: string): (r: Option<string>)
    ensures r.Some? ==> |r.value| == 10 && AllDigits(r.value)
  {
    var cleaned := DigitsOnly(phone);
    if |cleaned| == 10 then Some(cleaned)
    else if |cleaned| == 12 && StartsWith(cleaned, "91") then Some(cleaned[2..])
    else None
  }

  /** The grouped form of ten national digits. */
  function Grouped(n: string): string
    requires |n| == 10
  {
    "+91 " + n[..5] + " " + n[5..]
  }

  /** Dropping the non-digits distributes over concatenation. */
  lemma {:induction false} DigitsOnlyAppend(a: string, b: string)
    ensures DigitsOnly(a + b) == DigitsOnly(a) + DigitsOnly(b)
    decreases |a|
  {
    if a == [] {
      assert a + b == b;
    } else {
      DigitsOnlyAppend(a[1..], b);
      assert (a + b)[1..] == a[1..] + b;
    }
  }

  /** A run of digits keeps all its characters. */
  lemma {:induction false} DigitsOnlyOfDigits(s: string)
    requires AllDigits(s)
    ensures DigitsOnly(s) == s
    decreases |s|
  {
    if s != [] {
      DigitsOnlyOfDigits(s[1..]);
      assert s == [s[0]] + s[1..];
    }
  }

  /** Whatever the punctuation and with or without the 91 country code, a
      grouped number is shown as its national digits in two blocks of five
      after `+91`; the shown text keeps exactly the country code and those
      digits. */
  lemma FormatPhoneGroups(phone: string)
    requires National(phone).Some?
    ensures FormatPhone(phone) == Grouped(National(phone).value)
    ensures DigitsOnly(FormatPhone(phone)) == "91" + National(phone).value
  {
    var n := National(phone).value;
    var cleaned := DigitsOnly(phone);
    assert phone != "" by {
      assert DigitsOnly("") == "";
    }
    if |cleaned| == 12 {
      assert cleaned[..2] == "91";
      assert cleaned[2..7] == n[..5] && cleaned[7..] == n[5..];
    }
    GroupedDigits(n);
  }

  /** The digits of a grouped number are 91 and the national digits. */
  lemma GroupedDigits(n: string)
    requires |n| == 10 && AllDigits(n)
    ensures DigitsOnly(Grouped(n)) == "91" + n
  {
    var a, b := n[..5], n[5..];
    CodeThenDigits(a);
    SpaceThenDigits("+91 " + a, b);
    assert ("91" + a) + b == "91" + n by {
      assert a + b == n;
    }
  }

  lemma CodeThenDigits(a: string)
    requires AllDigits(a)
    ensures DigitsOnly("+91 " + a) == "91" + a
  {
    Separators();
    DigitsOnlyOfDigits(a);
    DigitsOnlyAppend("+91 ", a);
  }

  lemma SpaceThenDigits(x: string, b: string)
    requires AllDigits(b)
    ensures DigitsOnly(x + " " + b) == DigitsOnly(x) + b
  {
    Separators();
    DigitsOnlyOfDigits(b);
    DigitsOnlyAppend(x, " ");
    DigitsOnlyAppend(x + " ", b);
  }

  lemma Separators()
    ensures DigitsOnly(" ") == "" && DigitsOnly("+91 ") == "91"
  {
    assert " "[1..] == "";
    var p := "+91 ";
    assert p[1..] == "91 " && p[1..][1..] == "1 " && p[1..][1..][1..] == " ";
  }

  /** Formatting a shown phone number again changes nothing: the grouped
      form is grouped again the same way, `-` and unrecognised numbers are
      shown as they are. */
  lemma FormatPhoneIdempotent(phone: string)
    ensures FormatPhone(FormatPhone(phone)) == FormatPhone(phone)
  {
    if National(phone).Some? {
      var n := National(phone).value;
      FormatPhoneGroups(phone);
      var shown := Grouped(n);
      assert National(shown) == Some(n) by {
        assert DigitsOnly(shown) == "91" + n;
        assert ("91" + n)[2..] == n;
      }
      FormatPhoneGroups(shown);
    } else if phone == "" {
      assert DigitsOnly("-") == "";
    }
  }

  /** `getSRText(count)`: `1 SR` for one, else the count and `SRs`. */
  function GetSRText(count: int): string {
    if count == 1 then "1 SR" else IntToString(count) + " SRs"
  }

  lemma OneText()
    ensures IntToString(1) == "1"
  {
    assert DigitChar(1) == '1';
  }

  /** The text starts with the count, which `parseInt` reads back; the
      plural is used for every count but one. */
  lemma SRTextReadsBack(count: int)
    ensures ParseInt(GetSRText(count)) == Some(count)
    ensures GetSRText(count) == IntToString(count) + (if count == 1 then " SR" else " SRs")
  {
    if count == 1 {
      OneText();
      assert "1 SR" == "1" + " SR";
      ParseIntThen(1, " SR");
    } else {
      ParseIntThen(count, " SRs");
    }
  }

  /** No number shows `-`, and a number that is neither ten digits nor
      twelve starting with 91 is shown exactly as given. */
  lemma FormatPhoneFallbacks(phone: string)
    ensures phone == "" ==> FormatPhone(phone) == "-"
    ensures phone != "" && National(phone).None? ==> FormatPhone(phone) == phone
  {
  }
}
