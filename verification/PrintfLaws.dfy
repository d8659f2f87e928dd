/** What a caller of the embedded printf can rely on: truncation, widths, and digits that read back. */
module PrintfLaws {
  import opened PrintfText
  import opened Words

  // ----- truncation -----

  /** The last of n writes that goes to place p. */
  function LastWrite(p: nat, n: nat): (k: nat)
    requires p < n && p < UINT
    ensures k < n && k % UINT == p && k + UINT >= n
  {
    p + UINT * ((n - 1 - p) / UINT)
  }

  lemma {:induction false} Written(b: seq<char>, limit: nat, text: string, p: nat)
    requires limit <= |b| && limit < UINT && p < |b|
    ensures PutAll(b, limit, text)[p] == if p < limit && p < |text| then text[LastWrite(p, |text|)] else b[p]
  {
    if text != "" {
      var n := |text| - 1;
      Written(b, limit, text[..n], p);
      if p < limit && p < n {
        SameLastWrite(p, n);
      }
    }
  }

  lemma SameLastWrite(p: nat, n: nat)
    requires p < n && p < UINT
    ensures LastWrite(p, n + 1) == if n % UINT == p then n else LastWrite(p, n)
  {
  }

  /** What section 7.19.6.5 of ISO/IEC 9899:1999 asks of snprintf. */
  ghost predicate Conforms(b: seq<char>, limit: nat, text: string)
    requires limit <= |b|
  {
    var m := Min(|text|, limit - 1);
    && Returned(text) == |text|
    && (limit == 0 ==> Final(b, limit, text) == b)
    && (limit > 0 ==> Final(b, limit, text) == text[..m] + ['\0'] + b[m + 1..])
  }

  /** It does so exactly when the length of the text is an `int`. */
  lemma TruncatesRightly(b: seq<char>, limit: nat, text: string)
    requires limit <= |b| && limit < UINT
    ensures Conforms(b, limit, text) <==> |text| < 0x8000_0000
  {
    if |text| < 0x8000_0000 && limit > 0 {
      Truncated(b, limit, text, Min(|text|, limit - 1));
    } else if |text| < 0x8000_0000 {
      forall p | 0 <= p < |b| ensures Final(b, limit, text)[p] == b[p] {
        Written(b, limit, text, p);
      }
      assert Final(b, limit, text) == b;
    }
  }

  lemma Truncated(b: seq<char>, limit: nat, text: string, m: nat)
    requires 0 < limit <= |b| && limit < UINT && |text| < UINT && m == Min(|text|, limit - 1)
    ensures Final(b, limit, text) == text[..m] + ['\0'] + b[m + 1..]
  {
    var want := text[..m] + ['\0'] + b[m + 1..];
    forall p | 0 <= p < |b| ensures Final(b, limit, text)[p] == want[p] {
      FinalAt(b, limit, text, m, p);
    }
  }

  lemma FinalAt(b: seq<char>, limit: nat, text: string, m: nat, p: nat)
    requires 0 < limit <= |b| && limit < UINT && |text| < UINT && m == Min(|text|, limit - 1) && p < |b|
    ensures Final(b, limit, text)[p] == if p < m then text[p] else if p == m then '\0' else b[p]
  {
    Written(b, limit, text, p);
  }

  /** One wide conversion is enough for a text that is one character too long. */
  lemma HugeWidth()
    ensures var r := Render("%*cx", [Int(0x7fff_ffff), Int(65)], 0, 0, "");
            r.Some? && |r.value| == 0x8000_0000 && Returned(r.value) == -0x8000_0000
  {
    var f, args := "%*cx", [Int(0x7fff_ffff), Int(65)];
    assert FlagsFrom(f, 1, NO_FLAGS) == (NO_FLAGS, 1);
    assert WidthFrom(f, args, Field(NO_FLAGS, 0, 0, 1, 0)) == Some(Field(NO_FLAGS, 0x7fff_ffff, 0, 2, 1));
    assert FieldFrom(f, args, 1, 0) == Some(Field(NO_FLAGS, 0x7fff_ffff, 0, 2, 1));
    var shown := Padded(['A'], 1, 0x7fff_ffff, false);
    assert Conversion(f, args, 1, 0) == Some(Stage(3, 2, shown));
    assert Render(f, args, 0, 0, "") == Render(f, args, 3, 2, "" + shown);
  }

  // ----- widths -----

  lemma PrefixNeverShortens(s: string, base: nat, prec: nat, width: nat, flags: Flags)
    requires IsBase(base) && |s| <= SCRATCH
    ensures |s| <= |Prefixed(s, base, prec, width, flags)| <= SCRATCH
  {
  }

  /** A number fills its width, except that zeros stop at the size of the scratch buffer. */
  lemma WidthIsKept(value: nat, negative: bool, base: nat, prec: nat, width: nat, flags: Flags)
    requires IsBase(base)
    ensures |NumberText(value, negative, base, prec, width, flags)| >= width <==>
            width <= SCRATCH || flags.left || !flags.zeroPad
  {
    var filled := Zeros(DigitsOf(value, base, flags), negative, prec, width, flags);
    PrefixNeverShortens(filled, base, prec, if flags.left then width else FillWidth(negative, width, flags), flags);
    ScratchLength(value, negative, base, prec, width, flags);
  }

  lemma ScratchLength(value: nat, negative: bool, base: nat, prec: nat, width: nat, flags: Flags)
    requires IsBase(base)
    ensures |Scratch(value, negative, base, prec, width, flags)| <= SCRATCH
    ensures !flags.left && flags.zeroPad && width <= SCRATCH ==> |Scratch(value, negative, base, prec, width, flags)| >= width
  {
    var filled := Zeros(DigitsOf(value, base, flags), negative, prec, width, flags);
    PrefixNeverShortens(filled, base, prec, if flags.left then width else FillWidth(negative, width, flags), flags);
  }

  // ----- digits -----

  /** base * x, one case for each base. */
  function Scaled(base: nat, x: nat): nat
    requires IsBase(base)
  {
    if base == 2 then 2 * x else if base == 8 then 8 * x else if base == 10 then 10 * x else 16 * x
  }

  function Power(base: nat, n: nat): (r: nat)
    requires IsBase(base)
    ensures r > 0
  {
    if n == 0 then 1 else Scaled(base, Power(base, n - 1))
  }

  /** The quotient and the remainder are those of the usual division. */
  lemma Division(value: nat, base: nat)
    requires IsBase(base)
    ensures Quotient(value, base) == value / base && Remainder(value, base) == value % base
    ensures value == Scaled(base, Quotient(value, base)) + Remainder(value, base)
  {
  }

  function DigitValue(c: char): (d: nat)
    ensures d < 36
  {
    if '0' <= c <= '9' then (c - '0') as nat
    else if 'a' <= c <= 'z' then (c - 'a') as nat + 10
    else if 'A' <= c <= 'Z' then (c - 'A') as nat + 10
    else 0
  }

  lemma DigitReads(d: nat, upper: bool)
    requires d < 36
    ensures DigitValue(DigitChar(d, upper)) == d
  {
  }

  /** The number that digits show, the last one first. */
  function RevValue(s: string, base: nat): nat
    requires IsBase(base)
  {
    if s == "" then 0 else DigitValue(s[0]) + Scaled(base, RevValue(s[1..], base))
  }

  /** The scratch buffer shows the whole number exactly when it has room for all its digits. */
  lemma {:induction false} DigitsShowValue(value: nat, base: nat, upper: bool, n: nat)
    requires IsBase(base) && n > 0
    ensures var s := RevDigits(value, base, upper, n);
            RevValue(s, base) < Power(base, n) && (RevValue(s, base) == value <==> value < Power(base, n))
    decreases n
  {
    var d, q := Remainder(value, base), Quotient(value, base);
    var s := RevDigits(value, base, upper, n);
    DigitReads(d, upper);
    Division(value, base);
    OnePower(base, n);
    if q == 0 || n == 1 {
      assert s[1..] == "";
    } else {
      DigitsShowValue(q, base, upper, n - 1);
      assert s[1..] == RevDigits(q, base, upper, n - 1);
    }
  }

  lemma OnePower(base: nat, n: nat)
    requires IsBase(base) && n > 0
    ensures Power(base, n) == Scaled(base, Power(base, n - 1)) && Power(base, 0) == 1
  {
  }

  lemma EightPowers(n: nat)
    ensures Power(2, n + 8) == 256 * Power(2, n)
  {
    assert Power(2, n + 2) == 4 * Power(2, n);
    assert Power(2, n + 4) == 4 * Power(2, n + 2);
    assert Power(2, n + 6) == 4 * Power(2, n + 4);
    assert Power(2, n + 8) == 4 * Power(2, n + 6);
  }

  lemma {:induction false} SmallestPower(base: nat, n: nat)
    requires IsBase(base)
    ensures Power(base, n) >= Power(2, n)
  {
    if n > 0 {
      SmallestPower(base, n - 1);
      OnePower(base, n);
      OnePower(2, n);
    }
  }

  lemma ManyPowers(n: nat)
    ensures Power(2, n + 32) == UINT * Power(2, n)
  {
    EightPowers(n);
    EightPowers(n + 8);
    EightPowers(n + 16);
    EightPowers(n + 24);
  }

  lemma WordsBelow(value: nat, base: nat, n: nat)
    requires IsBase(base) && value < UINT && n == SCRATCH
    ensures value < Power(base, n)
  {
    ManyPowers(n - SCRATCH);
    SmallestPower(base, n);
  }

  /** In every base the 32 places are enough for the digits of a 32-bit number. */
  lemma WordsFit(value: nat, base: nat, upper: bool)
    requires IsBase(base) && value < UINT
    ensures RevValue(RevDigits(value, base, upper, SCRATCH), base) == value
  {
    WordsBelow(value, base, SCRATCH);
    DigitsShowValue(value, base, upper, SCRATCH);
  }

  // ----- reading a number back -----

  /** The number that digits show, the first one first. */
  function Read(s: string, base: nat, start: nat): nat
    requires IsBase(base)
  {
    if s == "" then start else Read(s[1..], base, Scaled(base, start) + DigitValue(s[0]))
  }

  lemma {:induction false} ReadSnoc(s: string, c: char, base: nat, start: nat)
    requires IsBase(base)
    ensures Read(s + [c], base, start) == Scaled(base, Read(s, base, start)) + DigitValue(c)
    decreases |s|
  {
    if s == "" {
      assert s + [c] == [c] && [c][1..] == "";
    } else {
      assert (s + [c])[1..] == s[1..] + [c];
      ReadSnoc(s[1..], c, base, Scaled(base, start) + DigitValue(s[0]));
    }
  }

  lemma {:induction false} ReadReverse(r: string, base: nat)
    requires IsBase(base)
    ensures Read(Reverse(r), base, 0) == RevValue(r, base)
  {
    if r != "" {
      ReadReverse(r[1..], base);
      ReadSnoc(Reverse(r[1..]), r[0], base, 0);
    }
  }

  /** A digit of the base, in lower or upper case. */
  predicate IsDigitOf(c: char, base: nat, upper: bool) {
    DigitValue(c) < base && c == DigitChar(DigitValue(c), upper)
  }

  predicate AllDigitsOf(s: string, base: nat, upper: bool) { forall i :: 0 <= i < |s| ==> IsDigitOf(s[i], base, upper) }

  lemma {:induction false} DigitsAreDigits(value: nat, base: nat, upper: bool, n: nat)
    requires IsBase(base) && n > 0
    ensures AllDigitsOf(RevDigits(value, base, upper, n), base, upper)
    decreases n
  {
    DigitReads(Remainder(value, base), upper);
    if Quotient(value, base) != 0 && n > 1 {
      DigitsAreDigits(Quotient(value, base), base, upper, n - 1);
    }
  }

  lemma {:induction false} ReverseAt(s: string, i: nat)
    requires i < |s|
    ensures Reverse(s)[i] == s[|s| - 1 - i]
  {
    if i < |s| - 1 {
      ReverseAt(s[1..], i);
    }
  }

  lemma ReverseDigits(s: string, base: nat, upper: bool)
    requires AllDigitsOf(s, base, upper)
    ensures AllDigitsOf(Reverse(s), base, upper)
  {
    forall i | 0 <= i < |s| ensures IsDigitOf(Reverse(s)[i], base, upper) {
      ReverseAt(s, i);
    }
  }

  lemma {:induction false} ReverseJoin(s: string, t: string)
    ensures Reverse(s + t) == Reverse(t) + Reverse(s)
  {
    if s == "" {
      assert s + t == t;
    } else {
      assert (s + t)[1..] == s[1..] + t;
      ReverseJoin(s[1..], t);
    }
  }

  lemma {:induction false} LeadingZeros(s: string, n: nat, base: nat)
    requires IsBase(base)
    ensures RevValue(s + Repeat('0', n), base) == RevValue(s, base)
    decreases |s|
  {
    var t := s + Repeat('0', n);
    if s == "" {
      OnlyZeros(n, base);
      assert t == Repeat('0', n);
    } else {
      assert t[1..] == s[1..] + Repeat('0', n);
      LeadingZeros(s[1..], n, base);
    }
  }

  lemma {:induction false} OnlyZeros(n: nat, base: nat)
    requires IsBase(base)
    ensures RevValue(Repeat('0', n), base) == 0
  {
    if n > 0 {
      OnlyZeros(n - 1, base);
      assert Repeat('0', n)[1..] == Repeat('0', n - 1);
    }
  }

  /** How many digits a number has; zero has one. */
  function Digits(value: nat, base: nat): (d: nat)
    requires IsBase(base)
    ensures d > 0
  {
    if Quotient(value, base) == 0 then 1 else 1 + Digits(Quotient(value, base), base)
  }

  lemma {:induction false} DigitsLength(value: nat, base: nat, upper: bool, n: nat)
    requires IsBase(base) && n > 0
    ensures |RevDigits(value, base, upper, n)| == Min(Digits(value, base), n)
    decreases n
  {
    if Quotient(value, base) != 0 && n > 1 {
      DigitsLength(Quotient(value, base), base, upper, n - 1);
    }
  }

  /** A number has at most k digits exactly if it is below the k-th power of the base. */
  lemma {:induction false} PlacesOf(value: nat, base: nat, k: nat)
    requires IsBase(base) && (k == 0 ==> value > 0)
    ensures value < Power(base, k) <==> Digits(value, base) <= k
    decreases k
  {
    var q := Quotient(value, base);
    Division(value, base);
    if k > 0 {
      OnePower(base, k);
      if q != 0 {
        PlacesOf(q, base, k - 1);
      }
    }
  }

  lemma DigitCount(value: nat, base: nat, upper: bool, k: nat, n: nat)
    requires IsBase(base) && 0 < k < n
    ensures |RevDigits(value, base, upper, n)| <= k <==> value < Power(base, k)
  {
    DigitsLength(value, base, upper, n);
    PlacesOf(value, base, k);
  }

  /** Fewer places show the lower digits. */
  lemma {:induction false} FewerPlaces(value: nat, base: nat, upper: bool, m: nat, n: nat)
    requires IsBase(base) && 0 < m <= n && m <= |RevDigits(value, base, upper, n)|
    ensures RevDigits(value, base, upper, n)[..m] == RevDigits(value, base, upper, m)
    decreases n
  {
    var s, q := RevDigits(value, base, upper, n), Quotient(value, base);
    if m > 1 {
      FewerPlaces(q, base, upper, m - 1, n - 1);
      assert s[..m] == [s[0]] + s[1..][..m - 1];
    }
  }

  lemma {:induction false} PowerGrows(base: nat, k: nat, n: nat)
    requires IsBase(base) && k <= n
    ensures Power(base, k) <= Power(base, n)
  {
    if k < n {
      PowerGrows(base, k, n - 1);
      OnePower(base, n);
    }
  }

  /** Zeros in front change nothing. */
  lemma PaddedDigits(value: nat, base: nat, flags: Flags, zeros: nat)
    requires IsBase(base)
    ensures var s := DigitsOf(value, base, flags) + Repeat('0', zeros);
            AllDigitsOf(s, base, flags.upper) && RevValue(s, base) == RevValue(DigitsOf(value, base, flags), base)
  {
    DigitsAreDigits(value, base, flags.upper, SCRATCH);
    LeadingZeros(DigitsOf(value, base, flags), zeros, base);
  }

  /** The lower m digits of a number show it exactly if it is below the m-th power of the base. */
  lemma LowerDigits(value: nat, base: nat, flags: Flags, m: nat)
    requires IsBase(base) && m <= |DigitsOf(value, base, flags)|
    ensures var s := DigitsOf(value, base, flags)[..m];
            AllDigitsOf(s, base, flags.upper) && (RevValue(s, base) == value <==> value < Power(base, m))
  {
    DigitsAreDigits(value, base, flags.upper, SCRATCH);
    if m > 0 {
      FewerPlaces(value, base, flags.upper, m, SCRATCH);
      DigitsShowValue(value, base, flags.upper, m);
    }
  }

  /** The last m characters of a padded number show it exactly if it is below the m-th power of the base. */
  lemma LastDigitsShow(value: nat, base: nat, flags: Flags, zeros: nat, m: nat)
    requires IsBase(base) && m <= |DigitsOf(value, base, flags)| + zeros <= SCRATCH
    ensures var s := (DigitsOf(value, base, flags) + Repeat('0', zeros))[..m];
            AllDigitsOf(s, base, flags.upper) && (RevValue(s, base) == value <==> value < Power(base, m))
  {
    var digits := DigitsOf(value, base, flags);
    CutOf(digits, zeros, m);
    if m <= |digits| {
      LowerDigits(value, base, flags, m);
    } else {
      PaddedShow(value, base, flags, m - |digits|);
    }
  }

  lemma CutOf(digits: string, zeros: nat, m: nat)
    requires m <= |digits| + zeros
    ensures (digits + Repeat('0', zeros))[..m] == if m <= |digits| then digits[..m] else digits + Repeat('0', m - |digits|)
  {
    if m > |digits| {
      RepeatTaken('0', m - |digits|, zeros);
    }
  }

  lemma PaddedShow(value: nat, base: nat, flags: Flags, zeros: nat)
    requires IsBase(base) && |DigitsOf(value, base, flags)| + zeros <= SCRATCH && zeros > 0
    ensures var digits := DigitsOf(value, base, flags);
            && AllDigitsOf(digits + Repeat('0', zeros), base, flags.upper)
            && RevValue(digits + Repeat('0', zeros), base) == value < Power(base, |digits| + zeros)
  {
    var digits := DigitsOf(value, base, flags);
    PaddedDigits(value, base, flags, zeros);
    FewDigitsShow(value, base, flags);
    PowerGrows(base, |digits|, |digits| + zeros);
  }

  lemma {:induction false} RepeatTaken(c: char, m: nat, n: nat)
    requires m <= n
    ensures Repeat(c, n)[..m] == Repeat(c, m)
  {
    if m < n {
      RepeatTaken(c, m, n - 1);
      assert Repeat(c, n)[..m] == Repeat(c, n - 1)[..m];
    }
  }

  /** A number with fewer than 32 digits is shown by them. */
  lemma FewDigitsShow(value: nat, base: nat, flags: Flags)
    requires IsBase(base)
    ensures var digits := DigitsOf(value, base, flags);
            |digits| < SCRATCH ==> value < Power(base, |digits|) && RevValue(digits, base) == value
  {
    var digits := DigitsOf(value, base, flags);
    if 0 < |digits| < SCRATCH {
      DigitCount(value, base, flags.upper, |digits|, SCRATCH);
      PowerGrows(base, |digits|, SCRATCH);
      DigitsShowValue(value, base, flags.upper, SCRATCH);
    }
  }

  function Sign(negative: bool, flags: Flags): string {
    if negative then "-" else if flags.plus then "+" else if flags.space then " " else ""
  }

  /** The prefix of the alternative form; zero has none. */
  function Mark(value: nat, base: nat, flags: Flags): string {
    if !flags.hash || value == 0 then ""
    else if base == 16 then (if flags.upper then "0X" else "0x")
    else if base == 2 then "0b"
    else "0"
  }

  /** The last n characters, or all if there are fewer. */
  function Last(s: string, n: nat): string { if |s| <= n then s else s[|s| - n..] }

  /** The digits and zeros that stay in the scratch buffer. */
  function Body(value: nat, negative: bool, base: nat, prec: nat, width: nat, flags: Flags): string
    requires IsBase(base)
  {
    var filled := Zeros(DigitsOf(value, base, flags), negative, prec, width, flags);
    if flags.hash && value != 0
    then Kept(filled, base, prec, if flags.left then width else FillWidth(negative, width, flags), flags)
    else filled
  }

  lemma AppendedReverses(s: string, c: char)
    ensures Reverse(Appended(s, c)) == Last([c], if |s| < SCRATCH then SCRATCH - |s| else 0) + Reverse(s)
  {
    ReverseSnoc(s, c);
  }

  lemma {:induction false} ReverseSnoc(s: string, c: char)
    ensures Reverse(s + [c]) == [c] + Reverse(s)
  {
    if s == "" {
      assert s + [c] == [c] && [c][1..] == "";
    } else {
      assert (s + [c])[1..] == s[1..] + [c];
      ReverseSnoc(s[1..], c);
    }
  }

  /** In front of the digits stand the sign and the prefix, as far as the scratch buffer has room, the end of them first. */
  lemma FrontAppended(value: nat, negative: bool, base: nat, prec: nat, width: nat, flags: Flags)
    requires IsBase(base)
    ensures var body := Body(value, negative, base, prec, width, flags);
            && |body| <= SCRATCH
            && Reverse(Scratch(value, negative, base, prec, width, flags))
               == Last(Sign(negative, flags) + Mark(value, base, flags), SCRATCH - |body|) + Reverse(body)
  {
    var body := Body(value, negative, base, prec, width, flags);
    FilledFits(value, negative, base, prec, width, flags);
    ScratchIs(value, negative, base, prec, width, flags);
    FrontReverses(body, value, negative, base, flags);
  }

  lemma ScratchIs(value: nat, negative: bool, base: nat, prec: nat, width: nat, flags: Flags)
    requires IsBase(base)
    ensures var body := Body(value, negative, base, prec, width, flags);
            Scratch(value, negative, base, prec, width, flags)
            == SignedForm(if flags.hash && value != 0 then Marked(body, base, flags) else body, negative, flags)
  {
  }

  lemma FrontReverses(body: string, value: nat, negative: bool, base: nat, flags: Flags)
    requires IsBase(base) && |body| <= SCRATCH
    ensures Reverse(SignedForm(if flags.hash && value != 0 then Marked(body, base, flags) else body, negative, flags))
         == Last(Sign(negative, flags) + Mark(value, base, flags), SCRATCH - |body|) + Reverse(body)
  {
    MarkAppended(body, value, base, flags);
    SignAppended(if flags.hash && value != 0 then Marked(body, base, flags) else body, negative, flags);
    LastJoins(Sign(negative, flags), Mark(value, base, flags), SCRATCH - |body|);
    var mark := Last(Mark(value, base, flags), SCRATCH - |body|);
    var sign := Last(Sign(negative, flags), SCRATCH - |body| - |mark|);
    Regroup(sign, mark, Reverse(body));
  }

  lemma MarkAppended(s: string, value: nat, base: nat, flags: Flags)
    requires |s| <= SCRATCH
    ensures var t := if flags.hash && value != 0 then Marked(s, base, flags) else s;
            && |s| <= |t| <= SCRATCH && |t| == |s| + |Last(Mark(value, base, flags), SCRATCH - |s|)|
            && Reverse(t) == Last(Mark(value, base, flags), SCRATCH - |s|) + Reverse(s)
  {
    if flags.hash && value != 0 {
      if base == 16 || base == 2 {
        var c := if base == 2 then 'b' else if flags.upper then 'X' else 'x';
        ReverseSnoc(s, c);
        ReverseSnoc(s + [c], '0');
      }
      ReverseSnoc(s, '0');
    }
  }

  lemma SignAppended(s: string, negative: bool, flags: Flags)
    requires |s| <= SCRATCH
    ensures Reverse(SignedForm(s, negative, flags)) == Last(Sign(negative, flags), SCRATCH - |s|) + Reverse(s)
  {
    if negative {
      AppendedReverses(s, '-');
    } else if flags.plus {
      AppendedReverses(s, '+');
    } else if flags.space {
      AppendedReverses(s, ' ');
    } else {
      assert "" + Reverse(s) == Reverse(s);
    }
  }

  lemma LastJoins(s: string, t: string, n: nat)
    ensures |Last(t, n)| <= n && Last(s + t, n) == Last(s, n - |Last(t, n)|) + Last(t, n)
  {
  }

  lemma FilledFits(value: nat, negative: bool, base: nat, prec: nat, width: nat, flags: Flags)
    requires IsBase(base)
    ensures var digits := DigitsOf(value, base, flags);
            var filled := Zeros(digits, negative, prec, width, flags);
            && |digits| <= |filled| <= SCRATCH && filled == digits + Repeat('0', |filled| - |digits|)
            && |Body(value, negative, base, prec, width, flags)| <= |filled|
            && Body(value, negative, base, prec, width, flags)
               == filled[..|Body(value, negative, base, prec, width, flags)|]
  {
    ZerosAppend(DigitsOf(value, base, flags), negative, prec, width, flags);
  }

  predicate AllSpaces(s: string) { forall i :: 0 <= i < |s| ==> s[i] == ' ' }

  /** As many spaces as the width asks for, behind the text or in front of it; none in front if zeros stand for them. */
  predicate SpacedOut(lead: string, s: string, trail: string, width: nat, left: bool, zeros: bool) {
    && AllSpaces(lead) && AllSpaces(trail)
    && |lead| == (if left || zeros || width < |s| then 0 else width - |s|)
    && |trail| == (if !left || width < |s| then 0 else width - |s|)
  }

  /**
   * Every number, in every base, is printed as spaces, sign and prefix, digits, and spaces. The digits are digits of the
   * base and show the value exactly if there are enough of them for it; sign and prefix are cut only by the end of the
   * scratch buffer.
   */
  lemma NumberParts(value: nat, negative: bool, base: nat, prec: nat, width: nat, flags: Flags)
    returns (lead: string, front: string, shown: string, trail: string)
    requires IsBase(base)
    ensures NumberText(value, negative, base, prec, width, flags) == lead + (front + shown) + trail
    ensures SpacedOut(lead, front + shown, trail, width, flags.left, flags.zeroPad) == true
    ensures AllDigitsOf(shown, base, flags.upper) && |shown| <= SCRATCH
    ensures shown == Reverse(Body(value, negative, base, prec, width, flags))
    ensures front == Last(Sign(negative, flags) + Mark(value, base, flags), SCRATCH - |shown|)
    ensures Read(shown, base, 0) == value <==> value < Power(base, |shown|)
  {
    var body := Body(value, negative, base, prec, width, flags);
    shown := Reverse(body);
    FrontAppended(value, negative, base, prec, width, flags);
    front := Last(Sign(negative, flags) + Mark(value, base, flags), SCRATCH - |shown|);
    BodyShows(value, negative, base, prec, width, flags);
    ReversedShows(body, value, base, flags.upper);
    lead, trail := Spaces(front + shown, width, flags);
  }

  lemma BodyShows(value: nat, negative: bool, base: nat, prec: nat, width: nat, flags: Flags)
    requires IsBase(base)
    ensures var body := Body(value, negative, base, prec, width, flags);
            AllDigitsOf(body, base, flags.upper) && (RevValue(body, base) == value <==> value < Power(base, |body|))
  {
    var filled := Zeros(DigitsOf(value, base, flags), negative, prec, width, flags);
    FilledFits(value, negative, base, prec, width, flags);
    PartShows(value, base, flags, filled, Body(value, negative, base, prec, width, flags), |filled| - |DigitsOf(value, base, flags)|);
  }

  lemma PartShows(value: nat, base: nat, flags: Flags, filled: string, part: string, zeros: nat)
    requires IsBase(base) && filled == DigitsOf(value, base, flags) + Repeat('0', zeros) && |filled| <= SCRATCH
    requires |part| <= |filled| && part == filled[..|part|]
    ensures AllDigitsOf(part, base, flags.upper) && (RevValue(part, base) == value <==> value < Power(base, |part|))
  {
    LastDigitsShow(value, base, flags, zeros, |part|);
  }

  lemma ReversedShows(body: string, value: nat, base: nat, upper: bool)
    requires IsBase(base) && AllDigitsOf(body, base, upper) && (RevValue(body, base) == value <==> value < Power(base, |body|))
    ensures AllDigitsOf(Reverse(body), base, upper)
    ensures Read(Reverse(body), base, 0) == value <==> value < Power(base, |Reverse(body)|)
  {
    ReverseDigits(body, base, upper);
    ReadReverse(body, base);
  }

  lemma Spaces(s: string, width: nat, flags: Flags) returns (lead: string, trail: string)
    ensures Justified(s, width, flags) == lead + s + trail
    ensures SpacedOut(lead, s, trail, width, flags.left, flags.zeroPad) == true
  {
    lead := if !flags.left && !flags.zeroPad then Repeat(' ', width - |s|) else "";
    trail := if flags.left then Repeat(' ', width - |s|) else "";
  }

  /** Without the alternative form the digits show the value exactly if 32 places are enough for it. */
  lemma PlainShows(value: nat, negative: bool, base: nat, prec: nat, width: nat, flags: Flags)
    requires IsBase(base) && (!flags.hash || value == 0)
    ensures var n := |Body(value, negative, base, prec, width, flags)|;
            value < Power(base, n) <==> value < Power(base, SCRATCH)
  {
    FilledFits(value, negative, base, prec, width, flags);
    PlainBody(value, negative, base, prec, width, flags);
    FewDigitsShow(value, base, flags);
    PlacesEnough(value, base, |DigitsOf(value, base, flags)|, |Body(value, negative, base, prec, width, flags)|, SCRATCH);
  }

  lemma PlainBody(value: nat, negative: bool, base: nat, prec: nat, width: nat, flags: Flags)
    requires IsBase(base) && (!flags.hash || value == 0)
    ensures Body(value, negative, base, prec, width, flags)
         == Zeros(DigitsOf(value, base, flags), negative, prec, width, flags)
  {
  }

  lemma PlacesEnough(value: nat, base: nat, d: nat, n: nat, places: nat)
    requires IsBase(base) && d <= n <= places && (d < places ==> value < Power(base, d))
    ensures value < Power(base, n) <==> value < Power(base, places)
  {
    PowerGrows(base, d, n);
    PowerGrows(base, n, places);
  }

  /**
   * How many digits are shown without the alternative form: those of the number, none for a zero with a precision, and
   * zeros up to the precision and, padding with zeros, up to the width without the sign; 32 at most.
   */
  lemma ShownLength(value: nat, negative: bool, base: nat, prec: nat, width: nat, flags: Flags, d: nat, w: nat)
    requires IsBase(base) && (!flags.hash || value == 0)
    requires d == (if flags.precision && value == 0 then 0 else Min(Digits(value, base), SCRATCH))
    requires w == if flags.zeroPad then (if Sign(negative, flags) != "" && width > 0 then width - 1 else width) else 0
    ensures |Body(value, negative, base, prec, width, flags)| == if flags.left then d else Max(d, Min(Max(prec, w), SCRATCH))
  {
    DigitsLength(value, base, flags.upper, SCRATCH);
    PlainBody(value, negative, base, prec, width, flags);
  }

  function Max(x: int, y: int): int { if x < y then y else x }

  /** Whether the prefix of the alternative form takes the place of digits that are not padding; d is the number of digits. */
  predicate PrefixCuts(d: nat, base: nat, width: nat, flags: Flags) {
    && !flags.precision && d <= width <= SCRATCH
    && (d == width || (base == 16 && d + 1 == width && flags.zeroPad && !flags.left))
  }

  /** The alternative form shows the value exactly if 32 places are enough for it and its digits do not just fill the width. */
  lemma MarkedShows(value: nat, negative: bool, base: nat, prec: nat, width: nat, flags: Flags)
    requires IsBase(base) && flags.hash && value != 0 && (!flags.precision ==> prec == 0)
    ensures var n := |Body(value, negative, base, prec, width, flags)|;
            var w := if flags.left then width else FillWidth(negative, width, flags);
            value < Power(base, n) <==> Digits(value, base) <= SCRATCH && !PrefixCuts(Digits(value, base), base, w, flags)
  {
    var d := Digits(value, base);
    var w := if flags.left then width else FillWidth(negative, width, flags);
    DigitsLength(value, base, flags.upper, SCRATCH);
    BodyLength(value, negative, base, prec, width, flags, Min(d, SCRATCH), w);
    PlacesOf(value, base, |Body(value, negative, base, prec, width, flags)|);
  }

  /** How many characters stay of d digits, and when that is fewer than d. */
  lemma BodyLength(value: nat, negative: bool, base: nat, prec: nat, width: nat, flags: Flags, d: nat, w: nat)
    requires IsBase(base) && flags.hash && value != 0 && (!flags.precision ==> prec == 0)
    requires d == |DigitsOf(value, base, flags)| && w == if flags.left then width else FillWidth(negative, width, flags)
    ensures var n := |Body(value, negative, base, prec, width, flags)|;
            n <= SCRATCH && (d <= n <==> !PrefixCuts(d, base, w, flags))
  {
    FilledFits(value, negative, base, prec, width, flags);
  }

  /** `%#4x` prints 0x1234 as 0x34. */
  lemma PrefixEatsDigits()
    ensures Render("%#4x", [Int(0x1234)], 0, 0, "") == Some("0x34")
  {
    var f, args := "%#4x", [Int(0x1234)];
    var flags := NO_FLAGS.(hash := true);
    assert FlagsFrom(f, 1, NO_FLAGS) == (flags, 2) by {
      assert WithFlag(NO_FLAGS, '#') == flags;
      assert FlagsFrom(f, 2, flags) == (flags, 2);
    }
    assert Number(f, 2, 0) == (4, 3) by {
      assert Number(f, 3, 4) == (4, 3);
    }
    assert FieldFrom(f, args, 1, 0) == Some(Field(flags, 4, 0, 3, 0));
    assert IntegerFlags('x', flags) == flags;
    EatenText(flags);
    assert UnsignedValue(args, 0, flags) == Some(0x1234);
    assert Converted(f, Field(flags, 4, 0, 3, 0), args) == Some(Stage(4, 1, "0x34"));
    assert Conversion(f, args, 1, 0) == Some(Stage(4, 1, "0x34"));
    assert Render(f, args, 0, 0, "") == Render(f, args, 4, 1, "" + "0x34");
    assert "" + "0x34" == "0x34";
  }

  lemma EatenText(flags: Flags)
    requires flags == NO_FLAGS.(hash := true)
    ensures NumberText(0x1234, false, 16, 0, 4, flags) == "0x34"
  {
    EatenDigits();
    assert DigitsOf(0x1234, 16, flags) == "4321";
    assert Prefixed("4321", 16, 0, 4, flags) == "43x0";
    assert Scratch(0x1234, false, 16, 0, 4, flags) == "43x0";
    EatenReversed();
  }

  lemma EatenDigits()
    ensures RevDigits(0x1234, 16, false, SCRATCH) == "4321"
  {
    assert RevDigits(0x1, 16, false, 29) == "1";
    assert RevDigits(0x12, 16, false, 30) == "21";
    assert RevDigits(0x123, 16, false, 31) == "321";
  }

  lemma EatenReversed()
    ensures Reverse("43x0") == "0x34"
  {
    assert Reverse("0") == "0";
    assert Reverse("x0") == "0x";
    assert Reverse("3x0") == "0x3";
  }

  /** Whether a sign still finds room after the zeros, when the digits leave room for it. */
  predicate SignFits(prec: nat, width: nat, flags: Flags) {
    flags.left || (prec < SCRATCH && (!flags.zeroPad || width <= SCRATCH))
  }

  lemma SignRoom(value: nat, negative: bool, base: nat, prec: nat, width: nat, flags: Flags)
    requires IsBase(base) && (!flags.hash || value == 0) && Sign(negative, flags) != ""
    ensures |Body(value, negative, base, prec, width, flags)| < SCRATCH <==>
            value < Power(base, SCRATCH - 1) && SignFits(prec, width, flags)
  {
    DigitCount(value, base, flags.upper, SCRATCH - 1, SCRATCH);
  }

  lemma ZerosAppend(s: string, negative: bool, prec: nat, width: nat, flags: Flags)
    ensures var t := Zeros(s, negative, prec, width, flags); |t| >= |s| && t == s + Repeat('0', |t| - |s|)
  {
    if !flags.left {
      var t := Filled(s, prec);
      RepeatMore('0', |t| - |s|, Min(FillWidth(negative, width, flags), SCRATCH) - |t|);
    }
  }

  lemma {:induction false} RepeatMore(c: char, m: nat, n: int)
    ensures Repeat(c, m) + Repeat(c, n) == Repeat(c, m + if n < 0 then 0 else n)
  {
    if n > 0 {
      RepeatMore(c, m, n - 1);
    }
  }

  /** Numbers of 64 bits fit in every base but 2. */
  lemma LongsFit(value: nat, base: nat, n: nat)
    requires IsBase(base) && base != 2 && value < UINT * UINT && n == SCRATCH
    ensures value < Power(base, n)
  {
    LargerPower(base, n);
    LongPower(2 * n);
  }

  lemma LongPower(n: nat)
    requires n == 64
    ensures Power(2, n) == UINT * UINT
  {
    ManyPowers(n - 64);
    ManyPowers(n - 32);
  }

  lemma {:induction false} LargerPower(base: nat, n: nat)
    requires IsBase(base) && base != 2
    ensures Power(base, n) >= Power(2, 2 * n)
  {
    if n > 0 {
      LargerPower(base, n - 1);
      OnePower(base, n);
      OnePower(2, 2 * n);
      OnePower(2, 2 * n - 1);
    }
  }

  // ----- reading a decimal number back -----

  predicate AllDigits(s: string) { forall i :: 0 <= i < |s| ==> IsDigit(s[i]) }

  /** What `_atoi` makes of digits. */
  function Decimal(s: string, start: nat): nat
    requires AllDigits(s)
  {
    if s == "" then start else Decimal(s[1..], (start * 10 + (s[0] - '0') as nat) % UINT)
  }

  lemma {:induction false} NumberReads(s: string, p: nat, t: string, start: nat)
    requires p + |t| <= |s| && s[p..p + |t|] == t && AllDigits(t) && !IsDigit(At(s, p + |t|))
    ensures Number(s, p, start) == (Decimal(t, start), p + |t|)
    decreases |t|
  {
    if t != "" {
      assert s[p] == t[0] && s[p + 1..p + 1 + |t[1..]|] == t[1..];
      NumberReads(s, p + 1, t[1..], (start * 10 + (t[0] - '0') as nat) % UINT);
    }
  }

  lemma TimesTen(x: nat, d: nat)
    ensures ((x % UINT) * 10 + d) % UINT == (10 * x + d) % UINT
  {
  }

  /** `_atoi` reads the decimal number, modulo 2^32. */
  lemma {:induction false} DecimalIsRead(s: string, start: nat)
    requires AllDigits(s)
    ensures Decimal(s, start % UINT) == Read(s, 10, start) % UINT
    decreases |s|
  {
    if s != "" {
      TimesTen(start, DigitValue(s[0]));
      DecimalIsRead(s[1..], 10 * start + DigitValue(s[0]));
    }
  }

  lemma DecimalReads(s: string, upper: bool, value: nat)
    requires AllDigitsOf(s, 10, upper) && Read(s, 10, 0) == value < UINT
    ensures AllDigits(s) && Decimal(s, 0) == value
  {
    DecimalIsRead(s, 0);
  }

  /**
   * After its spaces and its sign a decimal number reads back as its value, whatever the flags; the minus sign of a
   * negative one is there exactly if the zeros leave room for it.
   */
  lemma ReadsBack(value: nat, negative: bool, prec: nat, width: nat, flags: Flags) returns (p: nat)
    requires value < UINT && !flags.hash
    ensures var text := NumberText(value, negative, 10, prec, width, flags);
            && p <= |text| && Number(text, p, 0).0 == value
            && (forall i :: 0 <= i < p ==> text[i] == ' ' || text[i] == '+' || text[i] == '-')
            && ((exists i :: 0 <= i < p && text[i] == '-') <==> negative && SignFits(prec, width, flags))
  {
    var lead, sign, shown, trail := DecimalParts(value, negative, prec, width, flags);
    p := |lead| + |sign|;
    Between(lead, sign, shown, trail);
    NumberReads(lead + (sign + shown) + trail, p, shown, 0);
    MinusShows(lead, sign, shown, trail);
  }

  /** The digits of a 32-bit number without a prefix read back in every base. */
  lemma WordParts(value: nat, negative: bool, base: nat, prec: nat, width: nat, flags: Flags)
    returns (lead: string, front: string, shown: string, trail: string)
    requires IsBase(base) && value < UINT && !flags.hash
    ensures NumberText(value, negative, base, prec, width, flags) == lead + (front + shown) + trail
    ensures AllDigitsOf(shown, base, flags.upper) && Read(shown, base, 0) == value
    ensures |shown| == |Body(value, negative, base, prec, width, flags)| <= SCRATCH
    ensures front == Last(Sign(negative, flags), SCRATCH - |shown|)
    ensures SpacedOut(lead, front + shown, trail, width, flags.left, flags.zeroPad) == true
  {
    lead, front, shown, trail := NumberParts(value, negative, base, prec, width, flags);
    WordsBelow(value, base, SCRATCH);
    PlainShows(value, negative, base, prec, width, flags);
    assert Sign(negative, flags) + Mark(value, base, flags) == Sign(negative, flags);
  }

  lemma DecimalParts(value: nat, negative: bool, prec: nat, width: nat, flags: Flags)
    returns (lead: string, sign: string, shown: string, trail: string)
    requires value < UINT && !flags.hash
    ensures NumberText(value, negative, 10, prec, width, flags) == lead + (sign + shown) + trail
    ensures AllSpaces(lead) && AllSpaces(trail) && AllDigits(shown) && Decimal(shown, 0) == value
    ensures sign == if SignFits(prec, width, flags) then Sign(negative, flags) else ""
  {
    lead, sign, shown, trail := WordParts(value, negative, 10, prec, width, flags);
    DecimalReads(shown, flags.upper, value);
    SignRoomDecimal(value, negative, 10, prec, width, flags);
    SignLast(negative, flags, |shown|, SignFits(prec, width, flags));
  }

  lemma SignRoomDecimal(value: nat, negative: bool, base: nat, prec: nat, width: nat, flags: Flags)
    requires base == 10 && value < UINT && !flags.hash
    ensures Sign(negative, flags) != "" ==>
              (|Body(value, negative, base, prec, width, flags)| < SCRATCH <==> SignFits(prec, width, flags))
  {
    if Sign(negative, flags) != "" {
      TenDigitsFit(value, base);
      SignRoom(value, negative, base, prec, width, flags);
    }
  }

  lemma SignLast(negative: bool, flags: Flags, n: nat, fits: bool)
    requires n <= SCRATCH && (Sign(negative, flags) != "" ==> (n < SCRATCH <==> fits))
    ensures Last(Sign(negative, flags), SCRATCH - n) == if fits then Sign(negative, flags) else ""
  {
  }

  lemma TenDigitsFit(value: nat, base: nat)
    requires value < UINT && base == 10
    ensures value < Power(base, SCRATCH - 1)
  {
    assert Power(10, 2) == 100;
    assert Power(10, 4) == 100 * Power(10, 2);
    assert Power(10, 6) == 100 * Power(10, 4);
    assert Power(10, 8) == 100 * Power(10, 6);
    assert Power(10, 10) == 100 * Power(10, 8);
    PowerGrows(base, 10, SCRATCH - 1);
  }

  lemma MinusShows(lead: string, sign: string, shown: string, trail: string)
    requires AllSpaces(lead) && (sign == "" || sign == "-" || sign == "+" || sign == " ")
    ensures var text, p := lead + (sign + shown) + trail, |lead| + |sign|;
            && (forall i :: 0 <= i < p ==> text[i] == ' ' || text[i] == '+' || text[i] == '-')
            && ((exists i :: 0 <= i < p && text[i] == '-') <==> sign == "-")
  {
    var text, p := lead + (sign + shown) + trail, |lead| + |sign|;
    assert forall i :: 0 <= i < |lead| ==> text[i] == lead[i];
    assert sign != "" ==> text[|lead|] == sign[0];
  }

  lemma Between(lead: string, sign: string, shown: string, trail: string)
    requires AllSpaces(trail)
    ensures var text, p := lead + (sign + shown) + trail, |lead| + |sign|;
            text[p..p + |shown|] == shown && !IsDigit(At(text, p + |shown|))
  {
    var text, p := lead + (sign + shown) + trail, |lead| + |sign|;
    if trail != "" {
      assert text[p + |shown|] == trail[0];
    }
  }
}
