/** `src/app/pipes/mobile-format.pipe.ts`: display a phone number as
    `(+91) ddddd ddddd`. */
module MobileFormat {
  import opened Seqs
  import opened Text

  /** `value.replace(/\D/g, '')`: the digits of `value`, in order. */
  function Digits(value: string): (d: string)
    ensures forall i :: 0 <= i < |d| ==> IsDigit(d[i])
  {
    Filter(value, IsDigit)
  }

  /** The cleaned string keeps every digit of the input, in order and with its
      multiplicity, and nothing else. */
  lemma {:induction false} DigitsAreTheInputDigits(value: string)
    ensures IsSubsequence(Digits(value), value)
    ensures forall c :: multiset(Digits(value))[c] == if IsDigit(c) then multiset(value)[c] else 0
  {
    FilterIsSubsequence(value, IsDigit);
    forall c ensures multiset(Digits(value))[c] == if IsDigit(c) then multiset(value)[c] else 0 {
      FilterCounts(value, IsDigit, c);
    }
  }

  /** A digit string the pipe knows how to format. */
  predicate Formattable(d: string)
  {
    |d| == 10 || (|d| == 12 && "91" <= d)
  }

  /** The formatted form of a formattable digit string: its last ten digits as two
      groups of five after the country code. */
  function Formatted(d: string): string
    requires Formattable(d)
  {
    var local := if |d| == 10 then d else d[2..];
    "(+91) " + local[..5] + " " + local[5..]
  }

  /** `MobileFormatPipe.transform`. */
  function Transform(value: string): string
  {
    if value == [] then []
    else
      var cleaned := Digits(value);
      if |cleaned| == 10 then "(+91) " + cleaned[..5] + " " + cleaned[5..]
      else if |cleaned| == 12 && "91" <= cleaned then "(+91) " + cleaned[2..7] + " " + cleaned[7..]
      else value
  }

  /** The cases of the pipe: empty stays empty, formattable digits are formatted into a
      17-character string, anything else comes back as given (not cleaned). */
  lemma TransformCases(value: string)
    ensures value == [] ==> Transform(value) == []
    ensures value != [] && Formattable(Digits(value)) ==>
              Transform(value) == Formatted(Digits(value)) && |Transform(value)| == 17
    ensures value != [] && !Formattable(Digits(value)) ==> Transform(value) == value
  {
  }

  /** Only the digits of a non-empty input decide a formatted result: inputs that differ
      only in their non-digit characters format alike. */
  lemma OnlyDigitsMatter(a: string, b: string)
    requires a != [] && b != [] && Digits(a) == Digits(b) && Formattable(Digits(a))
    ensures Transform(a) == Transform(b)
  {
  }

  lemma DigitsOfPrefix()
    ensures Digits("(+91) ") == "91" && Digits(" ") == []
  {
    var p := "(+91) ";
    assert p[1..] == "+91) " && p[2..] == "91) " && p[3..] == "1) " && p[4..] == ") " && p[5..] == " ";
    assert Filter(" ", IsDigit) == [];
    assert Filter(") ", IsDigit) == [];
    assert Filter("1) ", IsDigit) == "1";
    assert Filter("91) ", IsDigit) == "91";
    assert Filter("+91) ", IsDigit) == "91";
  }

  /** The digits of a formatted number are the country code followed by the ten local digits. */
  lemma {:induction false} DigitsOfFormatted(x: string, y: string)
    requires forall i :: 0 <= i < |x| ==> IsDigit(x[i])
    requires forall i :: 0 <= i < |y| ==> IsDigit(y[i])
    ensures Digits("(+91) " + x + " " + y) == "91" + x + y
  {
    var p, sp := "(+91) ", " ";
    var a := p + x;
    var b := a + sp;
    FilterAppend(b, y, IsDigit);
    FilterAppend(a, sp, IsDigit);
    FilterAppend(p, x, IsDigit);
    FilterAllKept(x, IsDigit);
    FilterAllKept(y, IsDigit);
    DigitsOfPrefix();
    assert Digits(b + y) == Digits(b) + y;
    assert Digits(b) == Digits(a);
    assert Digits(a) == "91" + x;
  }

  /** Formatting is idempotent: a formatted number re-cleans to twelve digits starting
      with 91 and formats to itself. */
  lemma {:induction false} TransformIdempotent(value: string)
    ensures Transform(Transform(value)) == Transform(value)
  {
    if value != [] && Formattable(Digits(value)) {
      var d := Digits(value);
      var local := if |d| == 10 then d else d[2..];
      assert |local| == 10;
      var x, y := local[..5], local[5..];
      assert |d| == 12 ==> d[2..7] == x && d[7..] == y;
      var t := Transform(value);
      assert t == "(+91) " + x + " " + y;
      DigitsOfFormatted(x, y);
      var d' := "91" + x + y;
      assert Digits(t) == d' && |d'| == 12 && "91" <= d';
      assert d'[2..7] == x && d'[7..] == y;
    }
  }
}
