/** Datatypes and string helpers shared by the models. */
module Common {

  datatype Option<+T> = None | Some(value: T)

  datatype Result<+T, +E> = Ok(value: T) | Err(error: E)

  /** `strings.Cut(s, sep)`: the text before the first `sep`, the text after it, and whether it occurs. */
  function Cut(s: string, sep: char): (r: (string, string, bool))
    ensures r.2 <==> sep in s
    ensures sep !in r.0
    ensures s == if r.2 then r.0 + [sep] + r.1 else r.0
    ensures !r.2 ==> r.1 == ""
  {
    if s == "" then ("", "", false)
    else if s[0] == sep then ("", s[1..], true)
    else
      var (before, after, found) := Cut(s[1..], sep);
      ([s[0]] + before, after, found)
  }

  /** Cutting undoes joining exactly when the left part does not hold the separator. */
  lemma {:induction false} CutJoined(left: string, sep: char, right: string)
    ensures Cut(left + [sep] + right, sep) == (left, right, true) <==> sep !in left
  {
    var joined := left + [sep] + right;
    if sep !in left {
      if left == "" {
        assert joined[1..] == right;
      } else {
        assert joined[1..] == left[1..] + [sep] + right;
        CutJoined(left[1..], sep, right);
        assert [left[0]] + left[1..] == left;
      }
    }
  }

  /** A number in decimal digits. */
  function Decimal(n: nat): (r: string)
    ensures r != "" && '-' !in r
  {
    var digit := ['0' + (n % 10) as char];
    if n < 10 then digit else Decimal(n / 10) + digit
  }

  lemma {:induction false} DecimalInjective(a: nat, b: nat)
    ensures Decimal(a) == Decimal(b) ==> a == b
  {
    if Decimal(a) == Decimal(b) {
      var x, y := Decimal(a), Decimal(b);
      assert x[|x| - 1] == '0' + (a % 10) as char;
      assert y[|y| - 1] == '0' + (b % 10) as char;
      assert a % 10 == b % 10;
      if a >= 10 && b >= 10 {
        assert Decimal(a / 10) == x[..|x| - 1];
        assert Decimal(b / 10) == y[..|y| - 1];
        DecimalInjective(a / 10, b / 10);
      } else {
        DecimalLength(a);
        DecimalLength(b);
      }
    }
  }

  /** The number that decimal digits stand for. */
  function ValueOf(digits: string): int {
    if digits == "" then 0
    else 10 * ValueOf(digits[..|digits| - 1]) + (digits[|digits| - 1] as int - '0' as int)
  }

  /** Printing and reading a number gives it back; only digits are printed, without leading zeros. */
  lemma {:induction false} DecimalIsExact(n: nat)
    ensures ValueOf(Decimal(n)) == n
    ensures forall c | c in Decimal(n) :: '0' <= c <= '9'
    ensures n > 0 ==> Decimal(n)[0] != '0'
  {
    var s := Decimal(n);
    if n >= 10 {
      DecimalIsExact(n / 10);
      assert s[..|s| - 1] == Decimal(n / 10);
    } else {
      assert s[..0] == "";
    }
  }

  lemma DecimalLength(n: nat)
    ensures |Decimal(n)| == 1 <==> n < 10
  {
    if n >= 10 {
      assert Decimal(n / 10) != "";
    }
  }
}
