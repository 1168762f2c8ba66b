/**
 * The size field of a key detail, `"<digits> b"`, and how the profiler turns it into a
 * number: the regular expression ` b$` removes a trailing `" b"`, and `float` parses
 * what is left (memcached_object_profile.py, lines 73 and 105). Only unsigned decimal
 * integers are modelled as the numerals `float` accepts.
 */
module SizeField {
  import opened Results

  /** True when `s` ends with the byte unit `" b"`. */
  predicate HasByteSuffix(s: string)
  {
    |s| >= 2 && s[|s| - 2..] == " b"
  }

  /** `rmb.sub('', size)`: drops one trailing `" b"` if there is one, and nothing else. */
  function StripByteSuffix(field: string): (r: string)
    ensures HasByteSuffix(field) ==> field == r + " b"
    ensures !HasByteSuffix(field) ==> r == field
  {
    if HasByteSuffix(field) then field[..|field| - 2] else field
  }

  predicate IsDigit(c: char)
  {
    '0' <= c <= '9'
  }

  /** A non-empty run of decimal digits. */
  predicate IsNumeral(s: string)
  {
    |s| > 0 && forall i :: 0 <= i < |s| ==> IsDigit(s[i])
  }

  /** The value of a string of decimal digits, most significant digit first. */
  function DigitsValue(s: string): nat
    requires forall i :: 0 <= i < |s| ==> IsDigit(s[i])
  {
    if s == [] then 0
    else
      var last := s[|s| - 1];
      assert IsDigit(last);
      DigitsValue(s[..|s| - 1]) * 10 + (last as int - '0' as int)
  }

  /** `float(s)` restricted to unsigned decimal integers: `None` stands for the `ValueError` it raises. */
  function ParseDecimal(s: string): Option<nat>
  {
    if IsNumeral(s) then Some(DigitsValue(s)) else None
  }

  /** `float(rmb.sub('', size))`: the size in bytes, or `None` when the field is malformed. */
  function ParseSize(field: string): Option<nat>
  {
    ParseDecimal(StripByteSuffix(field))
  }

  /** The shortest decimal numeral of `n`: the form the cache server writes sizes in. */
  function DecimalString(n: nat): (s: string)
    ensures IsNumeral(s)
  {
    var digit := ('0' as int + n % 10) as char;
    if n < 10 then [digit] else DecimalString(n / 10) + [digit]
  }

  /** Reading back a written numeral gives the number. */
  lemma {:induction false} DecimalRoundTrip(n: nat)
    ensures ParseDecimal(DecimalString(n)) == Some(n)
  {
    var s := DecimalString(n);
    if n < 10 {
      assert s == [('0' as int + n) as char];
      assert s[..0] == [];
      assert DigitsValue(s) == n;
    } else {
      DecimalRoundTrip(n / 10);
      assert s[..|s| - 1] == DecimalString(n / 10);
      assert DigitsValue(s) == DigitsValue(DecimalString(n / 10)) * 10 + n % 10;
    }
  }

  /** A size field as the server writes it, `"<n> b"`, parses to `n`. */
  lemma SizeRoundTrip(n: nat)
    ensures ParseSize(DecimalString(n) + " b") == Some(n)
  {
    var field := DecimalString(n) + " b";
    assert HasByteSuffix(field);
    assert StripByteSuffix(field) == DecimalString(n);
    DecimalRoundTrip(n);
  }

  /**
   * What parses: a field parses to `n` exactly when it is a numeral of value `n`,
   * optionally followed by `" b"`.
   */
  lemma ParseSizeAccepts(field: string, n: nat)
    ensures ParseSize(field) == Some(n) <==>
      exists d :: IsNumeral(d) && DigitsValue(d) == n && (field == d || field == d + " b")
  {
    if ParseSize(field) == Some(n) {
      var d := StripByteSuffix(field);
      assert IsNumeral(d) && DigitsValue(d) == n && (field == d || field == d + " b");
    }
    if exists d :: IsNumeral(d) && DigitsValue(d) == n && (field == d || field == d + " b") {
      var d :| IsNumeral(d) && DigitsValue(d) == n && (field == d || field == d + " b");
      if field == d + " b" {
        assert HasByteSuffix(field);
        assert StripByteSuffix(field) == d;
      } else {
        assert !HasByteSuffix(field) by {
          if |field| >= 2 {
            assert IsDigit(field[|field| - 1]);
            assert field[|field| - 2..][1] == field[|field| - 1];
          }
        }
      }
    }
  }

  /** A unit other than bytes is malformed: `"10 kb"` does not parse as 10. */
  lemma KilobyteFieldRejected()
    ensures ParseSize("10 kb") == None
  {
    assert !IsDigit("10 kb"[2]);
  }

  /** The suffix is optional: a bare numeral such as `"10"` parses too. */
  lemma BareNumeralAccepted()
    ensures ParseSize("10") == Some(10)
  {
    assert !HasByteSuffix("10");
    assert DigitsValue("1") == 1;
  }
}
