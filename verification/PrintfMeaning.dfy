/** What a format prints, piece by piece: the text of each conversion in terms of the format and the argument as written. */
module PrintfMeaning {
  import opened PrintfText
  import opened PrintfLaws
  import opened PrintfGrammar
  import opened Words
  import opened Bits

  // ----- arguments -----

  /** v is the number that the bits stand for in two's complement. */
  predicate TwosComplement(bits: nat, modulus: nat, v: int)
    requires modulus > 0
  {
    -(modulus as int) <= 2 * v < modulus && (v - bits) % modulus == 0
  }

  /** How many numbers a length distinguishes. */
  function ModulusOf(length: string): (m: nat)
    ensures m > 0
  {
    if length == "ll" || length == "j" then UINT * UINT
    else if length == "h" then 0x1_0000
    else if length == "hh" then 0x100
    else UINT
  }

  /** v is what the length makes of argument a; a `char' has no sign. */
  predicate IsArgument(args: seq<Arg>, a: nat, length: string, signed: bool, v: int) {
    && (if length == "ll" || length == "j" then IsLong(args, a) else IsInt(args, a))
    && (if signed && length != "hh" then TwosComplement(args[a].bits, ModulusOf(length), v)
        else v == args[a].bits % ModulusOf(length))
  }

  lemma SignedArgument(spec: Spec, args: seq<Arg>, a: nat, b: nat, v: int)
    requires spec.WellFormed() && spec.Supplied(args, a) && IsArgument(args, b, spec.length, true, v)
    ensures SignedValue(args, b, spec.Meaning(args, a)) == Some(v)
  {
    var bits := args[b].bits;
    LengthsMean(spec, args, a);
    if spec.length == "ll" || spec.length == "j" {
      LongComplement(bits, v);
    } else if spec.length == "h" {
      ShortComplement(bits, v);
    } else if spec.length != "hh" {
      WordComplement(bits, v);
    }
  }

  lemma UnsignedArgument(spec: Spec, args: seq<Arg>, a: nat, b: nat, v: nat)
    requires spec.WellFormed() && spec.Supplied(args, a) && IsArgument(args, b, spec.length, false, v)
    ensures UnsignedValue(args, b, spec.Meaning(args, a)) == Some(v)
  {
    LengthsMean(spec, args, a);
  }

  lemma LengthsMean(spec: Spec, args: seq<Arg>, a: nat)
    requires spec.WellFormed() && spec.Supplied(args, a)
    ensures var f := spec.Meaning(args, a);
            && (f.longLong <==> spec.length == "ll" || spec.length == "j")
            && (f.char_ <==> spec.length == "hh")
            && (f.short <==> spec.length == "h" || spec.length == "hh")
            && (f.long <==> spec.length == "l" || spec.length == "t" || spec.length == "z" || spec.length == "ll")
  {
    NoLengths(NO_FLAGS, spec.flags);
  }

  lemma WordComplement(bits: nat, v: int)
    requires bits < UINT && TwosComplement(bits, UINT, v)
    ensures Signed(bits, UINT / 2) == v
  {
  }

  lemma ShortComplement(bits: nat, v: int)
    requires TwosComplement(bits, 0x1_0000, v)
    ensures Signed(bits % 0x1_0000, 0x8000) == v
  {
  }

  lemma LongComplement(bits: nat, v: int)
    requires bits < UINT * UINT && TwosComplement(bits, UINT * UINT, v)
    ensures Signed(bits, UINT * (UINT / 2)) == v
  {
  }

  // ----- integers -----

  function Radix(c: char): nat {
    if c == 'x' || c == 'X' then 16 else if c == 'o' then 8 else if c == 'b' then 2 else 10
  }

  function SignFor(spec: Spec, c: char, v: int): string {
    if c != 'd' && c != 'i' then ""
    else if v < 0 then "-" else if Has(spec.flags, '+') then "+" else if Has(spec.flags, ' ') then " " else ""
  }

  function MarkFor(spec: Spec, c: char, v: int): string {
    if !Has(spec.flags, '#') || v == 0 then ""
    else if c == 'x' then "0x" else if c == 'X' then "0X" else if c == 'b' then "0b" else if c == 'o' then "0" else ""
  }

  /** Zeros pad only if no precision is given. */
  predicate ZerosFor(spec: Spec) { Has(spec.flags, '0') && spec.precision.None? }

  lemma WrittenFlags(s: string)
    ensures var f := WithFlags(NO_FLAGS, s);
            && f.zeroPad == Has(s, '0') && f.plus == Has(s, '+') && f.space == Has(s, ' ') && f.hash == Has(s, '#') && !f.upper
  {
    NoLengths(NO_FLAGS, s);
    FlagsByPresence(NO_FLAGS, s, '0');
    FlagsByPresence(NO_FLAGS, s, '+');
    FlagsByPresence(NO_FLAGS, s, ' ');
    FlagsByPresence(NO_FLAGS, s, '#');
  }

  lemma FlagsMean(spec: Spec, args: seq<Arg>, a: nat)
    requires spec.WellFormed() && spec.Supplied(args, a)
    ensures var f := spec.Meaning(args, a);
            && f.zeroPad == Has(spec.flags, '0') && f.plus == Has(spec.flags, '+') && f.space == Has(spec.flags, ' ')
            && f.hash == Has(spec.flags, '#') && !f.upper && f.left == spec.Left(args, a) && f.precision == spec.precision.Some?
  {
    WrittenFlags(spec.flags);
    LengthsKeep(spec, args, a, WithFlags(NO_FLAGS, spec.flags));
  }

  lemma LengthsKeep(spec: Spec, args: seq<Arg>, a: nat, f: Flags)
    requires spec.WellFormed() && spec.Supplied(args, a) && f == WithFlags(NO_FLAGS, spec.flags)
    ensures var g := spec.Meaning(args, a);
            && g.zeroPad == f.zeroPad && g.plus == f.plus && g.space == f.space && g.hash == f.hash && g.upper == f.upper
            && g.left == spec.Left(args, a) && g.precision == spec.precision.Some?
  {
  }

  /** What the flags of a conversion come to for an integer. */
  lemma IntegerFlagsAre(spec: Spec, c: char, args: seq<Arg>, a: nat, v: int)
    requires spec.WellFormed() && spec.Supplied(args, a) && IsInteger(c)
    requires c == 'd' || c == 'i' || v >= 0
    ensures var flags := IntegerFlags(c, spec.Meaning(args, a));
            && flags.left == spec.Left(args, a) && flags.zeroPad == ZerosFor(spec) && flags.precision == spec.precision.Some?
            && flags.upper == (c == 'X') && flags.hash == (Has(spec.flags, '#') && Radix(c) != 10)
            && Sign(v < 0, flags) == SignFor(spec, c, v) && Mark(Abs(v), Radix(c), flags) == MarkFor(spec, c, v)
            && BaseOf(c) == Radix(c)
  {
    FlagsMean(spec, args, a);
  }

  /** The text of an integer: spaces, sign and prefix, digits, spaces. */
  datatype Printed = Printed(lead: string, front: string, shown: string, trail: string)
  {
    function Text(): string { lead + (front + shown) + trail }
  }

  /**
   * The parts of the text of v: the digits are those of the radix and show v unless there are too few of them, sign and
   * prefix stand before them as far as 32 places allow, and spaces fill the width on one side unless zeros do.
   */
  ghost predicate IntegerParts(spec: Spec, args: seq<Arg>, a: nat, c: char, v: int, t: Printed)
    requires spec.WellFormed() && spec.Supplied(args, a) && IsInteger(c)
  {
    && AllDigitsOf(t.shown, Radix(c), c == 'X') && |t.shown| <= SCRATCH
    && (Read(t.shown, Radix(c), 0) == Abs(v) <==> Abs(v) < Power(Radix(c), |t.shown|))
    && t.front == Last(SignFor(spec, c, v) + MarkFor(spec, c, v), SCRATCH - |t.shown|)
    && SpacedOut(t.lead, t.front + t.shown, t.trail, spec.Width(args, a), spec.Left(args, a), ZerosFor(spec))
  }

  lemma NumberPrinted(spec: Spec, args: seq<Arg>, a: nat, c: char, v: int, flags: Flags) returns (t: Printed)
    requires spec.WellFormed() && spec.Supplied(args, a) && IsInteger(c) && (c == 'd' || c == 'i' || v >= 0)
    requires flags == IntegerFlags(c, spec.Meaning(args, a))
    ensures NumberText(Abs(v), v < 0, Radix(c), spec.Precision(args, a), spec.Width(args, a), flags) == t.Text()
    ensures |t.shown| == |Body(Abs(v), v < 0, Radix(c), spec.Precision(args, a), spec.Width(args, a), flags)|
    ensures IntegerParts(spec, args, a, c, v, t) == true
  {
    IntegerFlagsAre(spec, c, args, a, v);
    var lead, front, shown, trail :=
      NumberParts(Abs(v), v < 0, Radix(c), spec.Precision(args, a), spec.Width(args, a), flags);
    t := Printed(lead, front, shown, trail);
  }

  lemma SignedText(c: char, f: Field, args: seq<Arg>, v: int)
    requires (c == 'd' || c == 'i') && SignedValue(args, f.a, f.flags) == Some(v)
    ensures ArgumentText(c, f, args)
         == Some(NumberText(Abs(v), v < 0, Radix(c), f.precision, f.width, IntegerFlags(c, f.flags)))
  {
  }

  lemma UnsignedText(c: char, f: Field, args: seq<Arg>, v: nat)
    requires IsInteger(c) && c != 'd' && c != 'i' && UnsignedValue(args, f.a, f.flags) == Some(v)
    ensures ArgumentText(c, f, args) == Some(NumberText(v, false, Radix(c), f.precision, f.width, IntegerFlags(c, f.flags)))
  {
  }

  lemma IntegerIs(spec: Spec, args: seq<Arg>, a: nat, c: char, v: int, f: Field)
    requires spec.WellFormed() && spec.Supplied(args, a) && IsInteger(c) && f.flags == spec.Meaning(args, a)
    requires IsArgument(args, f.a, spec.length, c == 'd' || c == 'i', v)
    ensures ArgumentText(c, f, args)
         == Some(NumberText(Abs(v), v < 0, Radix(c), f.precision, f.width, IntegerFlags(c, f.flags)))
  {
    if c == 'd' || c == 'i' {
      SignedArgument(spec, args, a, f.a, v);
      SignedText(c, f, args, v);
    } else {
      UnsignedArgument(spec, args, a, f.a, v);
      UnsignedText(c, f, args, v);
    }
  }

  /** The argument of an integer conversion, and the text that it gives. */
  lemma IntegerPrinted(spec: Spec, args: seq<Arg>, a: nat, c: char, v: int, e: nat) returns (t: Printed)
    requires spec.WellFormed() && spec.Supplied(args, a) && IsInteger(c)
    requires IsArgument(args, a + spec.Stars(), spec.length, c == 'd' || c == 'i', v)
    ensures ArgumentText(c, FieldOf(spec, args, a, e), args) == Some(t.Text())
    ensures |t.shown| == |Body(Abs(v), v < 0, Radix(c), spec.Precision(args, a), spec.Width(args, a),
                               IntegerFlags(c, spec.Meaning(args, a)))|
    ensures IntegerParts(spec, args, a, c, v, t) == true
  {
    t := NumberPrinted(spec, args, a, c, v, IntegerFlags(c, spec.Meaning(args, a)));
    IntegerIs(spec, args, a, c, v, FieldOf(spec, args, a, e));
  }

  /** Without a prefix the digits show the whole number, except for one of more than 32 binary digits. */
  lemma WholeNumber(spec: Spec, args: seq<Arg>, a: nat, c: char, v: int, t: Printed)
    requires spec.WellFormed() && spec.Supplied(args, a) && IsInteger(c) && MarkFor(spec, c, v) == ""
    requires IsArgument(args, a + spec.Stars(), spec.length, c == 'd' || c == 'i', v)
    requires |t.shown| == |Body(Abs(v), v < 0, Radix(c), spec.Precision(args, a), spec.Width(args, a),
                                IntegerFlags(c, spec.Meaning(args, a)))|
    requires IntegerParts(spec, args, a, c, v, t) == true
    ensures Read(t.shown, Radix(c), 0) == Abs(v) <==> c != 'b' || v < UINT
  {
    IntegerFlagsAre(spec, c, args, a, v);
    ArgumentBelow(args, a + spec.Stars(), spec.length, c == 'd' || c == 'i', v);
    PlacesFor(Abs(v), Radix(c), SCRATCH);
    PlainShows(Abs(v), v < 0, Radix(c), spec.Precision(args, a), spec.Width(args, a), IntegerFlags(c, spec.Meaning(args, a)));
  }

  /** 32 places are enough for 64 bits in all radixes but 2. */
  lemma PlacesFor(value: nat, base: nat, n: nat)
    requires IsBase(base) && value < UINT * UINT && n == SCRATCH
    ensures value < Power(base, n) <==> base != 2 || value < UINT
  {
    if base == 2 {
      BinaryPlaces(value, base, n);
    } else {
      LongsFit(value, base, n);
    }
  }

  lemma BinaryPlaces(v: nat, base: nat, n: nat)
    requires base == 2 && n == SCRATCH
    ensures v < Power(base, n) <==> v < UINT
  {
    ManyPowers(n - SCRATCH);
  }

  lemma ArgumentBelow(args: seq<Arg>, a: nat, length: string, signed: bool, v: int)
    requires IsArgument(args, a, length, signed, v)
    ensures Abs(v) < UINT * UINT && (!signed ==> v >= 0)
  {
  }

  /** Whether a sign finds room before the digits: zeros do not take its place. */
  predicate SignStays(spec: Spec, args: seq<Arg>, a: nat)
    requires spec.WellFormed() && spec.Supplied(args, a)
  {
    || spec.Left(args, a)
    || (spec.Precision(args, a) < SCRATCH && (!ZerosFor(spec) || spec.Width(args, a) <= SCRATCH))
  }

  /** Before the digits of %d stands the sign, or nothing if zeros have taken its place. */
  lemma SignStands(spec: Spec, args: seq<Arg>, a: nat, c: char, v: int, t: Printed)
    requires spec.WellFormed() && spec.Supplied(args, a) && (c == 'd' || c == 'i')
    requires IsArgument(args, a + spec.Stars(), spec.length, true, v)
    requires |t.shown| == |Body(Abs(v), v < 0, Radix(c), spec.Precision(args, a), spec.Width(args, a),
                                IntegerFlags(c, spec.Meaning(args, a)))|
    requires IntegerParts(spec, args, a, c, v, t) == true
    ensures t.front == if SignStays(spec, args, a) then SignFor(spec, c, v) else ""
  {
    var flags := IntegerFlags(c, spec.Meaning(args, a));
    IntegerFlagsAre(spec, c, args, a, v);
    ArgumentBelow(args, a + spec.Stars(), spec.length, true, v);
    LongBelow(Abs(v), Radix(c), SCRATCH - 1);
    if Sign(v < 0, flags) != "" {
      SignRoom(Abs(v), v < 0, Radix(c), spec.Precision(args, a), spec.Width(args, a), flags);
    }
    LastSign(spec, c, v, t, SignStays(spec, args, a));
  }

  lemma LastSign(spec: Spec, c: char, v: int, t: Printed, stays: bool)
    requires (c == 'd' || c == 'i') && |t.shown| <= SCRATCH
    requires t.front == Last(SignFor(spec, c, v) + MarkFor(spec, c, v), SCRATCH - |t.shown|)
    requires SignFor(spec, c, v) != "" ==> (|t.shown| < SCRATCH <==> stays)
    ensures t.front == if stays then SignFor(spec, c, v) else ""
  {
    assert SignFor(spec, c, v) + MarkFor(spec, c, v) == SignFor(spec, c, v);
  }

  lemma LongBelow(value: nat, base: nat, n: nat)
    requires value < UINT * UINT && base == 10 && n == SCRATCH - 1
    ensures value < Power(base, n)
  {
    TenPower(0);
    TenPower(5);
    TenPower(10);
    TenPower(15);
    PowerGrows(base, 20, n);
  }

  lemma TenPower(n: nat)
    ensures Power(10, n + 5) == 100000 * Power(10, n) && Power(10, 0) == 1
  {
    assert Power(10, n + 2) == 100 * Power(10, n);
    assert Power(10, n + 4) == 100 * Power(10, n + 2);
  }

  /**
   * How many digits are shown without a prefix: those of the number, none for a zero with a precision, and, unless the
   * text is set to the left, zeros up to the precision and those that pad the width without the sign; 32 at most.
   */
  lemma DigitsShown(spec: Spec, args: seq<Arg>, a: nat, c: char, v: int, d: nat, w: nat)
    requires spec.WellFormed() && spec.Supplied(args, a) && IsInteger(c) && (c == 'd' || c == 'i' || v >= 0)
    requires MarkFor(spec, c, v) == ""
    requires d == (if spec.precision.Some? && v == 0 then 0 else Min(Digits(Abs(v), Radix(c)), SCRATCH))
    requires w == if !ZerosFor(spec) then 0
                  else if SignFor(spec, c, v) != "" && spec.Width(args, a) > 0 then spec.Width(args, a) - 1
                  else spec.Width(args, a)
    ensures |Body(Abs(v), v < 0, Radix(c), spec.Precision(args, a), spec.Width(args, a), IntegerFlags(c, spec.Meaning(args, a)))|
         == if spec.Left(args, a) then d else Max(d, Min(Max(spec.Precision(args, a), w), SCRATCH))
  {
    var flags := IntegerFlags(c, spec.Meaning(args, a));
    IntegerFlagsAre(spec, c, args, a, v);
    ShownLength(Abs(v), v < 0, Radix(c), spec.Precision(args, a), spec.Width(args, a), flags, d, w);
  }

  // ----- characters, strings and pointers -----

  /** A text between spaces; `length` is its length, or both are no less than the width. */
  lemma PaddedOut(s: string, length: nat, width: nat, left: bool) returns (lead: string, trail: string)
    requires length == |s| || (width <= length && width <= |s|)
    ensures Padded(s, length, width, left) == lead + s + trail && SpacedOut(lead, s, trail, width, left, false)
  {
    lead := if left then "" else Repeat(' ', width - length);
    trail := if left then Repeat(' ', width - length) else "";
  }

  /** %c prints the low byte. */
  lemma CharPrinted(spec: Spec, args: seq<Arg>, a: nat, e: nat, shown: char) returns (lead: string, trail: string)
    requires spec.WellFormed() && spec.Supplied(args, a) && IsInt(args, a + spec.Stars())
    requires shown == (args[a + spec.Stars()].bits % 0x100) as char
    ensures ArgumentText('c', FieldOf(spec, args, a, e), args) == Some(lead + [shown] + trail)
    ensures SpacedOut(lead, [shown], trail, spec.Width(args, a), spec.Left(args, a), false)
  {
    lead, trail := PaddedOut([shown], 1, spec.Width(args, a), spec.Left(args, a));
  }

  lemma {:induction false} DecimalBelow(s: string, start: nat)
    requires AllDigits(s) && start < UINT
    ensures Decimal(s, start) < UINT
    decreases |s|
  {
    if s != "" {
      DecimalBelow(s[1..], (start * 10 + (s[0] - '0') as nat) % UINT);
    }
  }

  /** %s prints the string, or as much of it as the precision says. */
  lemma StringPrinted(spec: Spec, args: seq<Arg>, a: nat, e: nat, shown: string) returns (lead: string, trail: string)
    requires spec.WellFormed() && spec.Supplied(args, a) && IsText(args, a + spec.Stars())
    requires var text := args[a + spec.Stars()].text;
             shown == if spec.precision.None? || |text| <= spec.Precision(args, a) then text else text[..spec.Precision(args, a)]
    ensures ArgumentText('s', FieldOf(spec, args, a, e), args) == Some(lead + shown + trail)
    ensures SpacedOut(lead, shown, trail, spec.Width(args, a), spec.Left(args, a), false)
  {
    if spec.width != "*" {
      DecimalBelow(spec.width, 0);
    }
    lead, trail := PaddedOut(shown, Min(|shown|, UINT - 1), spec.Width(args, a), spec.Left(args, a));
    assert StringShown(args[a + spec.Stars()].text, FieldOf(spec, args, a, e)) == shown;
  }

  /** What the flags of %p come to. */
  lemma PointerFlags(spec: Spec, args: seq<Arg>, a: nat, bits: nat, flags: Flags)
    requires spec.WellFormed() && spec.Supplied(args, a) && flags == spec.Meaning(args, a).(zeroPad := true, upper := true)
    ensures flags.left == spec.Left(args, a) && flags.precision == spec.precision.Some? && flags.hash == Has(spec.flags, '#')
    ensures Sign(false, flags) == SignFor(spec, 'd', bits) && Mark(bits, 16, flags) == MarkFor(spec, 'X', bits)
  {
    FlagsMean(spec, args, a);
  }

  lemma PointerText(f: Field, args: seq<Arg>, bits: nat)
    requires IsInt(args, f.a) && bits == args[f.a].bits
    ensures ArgumentText('p', f, args)
         == Some(NumberText(bits, false, 16, f.precision, 8, f.flags.(zeroPad := true, upper := true)))
  {
  }

  lemma PointerShows(value: nat, base: nat, prec: nat, width: nat, flags: Flags)
    requires value < UINT && IsBase(base) && !flags.hash
    ensures value < Power(base, |Body(value, false, base, prec, width, flags)|)
  {
    WordsBelow(value, base, SCRATCH);
    PlainShows(value, false, base, prec, width, flags);
  }

  /** The parts of an address: signs and prefix as those of %X, and of %d where '+' or ' ' is given. */
  ghost predicate PointerParts(spec: Spec, args: seq<Arg>, a: nat, bits: nat, t: Printed)
    requires spec.WellFormed() && spec.Supplied(args, a)
  {
    && AllDigitsOf(t.shown, 16, true) && |t.shown| <= SCRATCH
    && (Read(t.shown, 16, 0) == bits <==> bits < Power(16, |t.shown|))
    && t.front == Last(SignFor(spec, 'd', bits) + MarkFor(spec, 'X', bits), SCRATCH - |t.shown|)
    && SpacedOut(t.lead, t.front + t.shown, t.trail, 8, spec.Left(args, a), true)
  }

  /** %p prints the address in upper case base 16, eight digits of it if nothing else is asked for. */
  lemma PointerPrinted(spec: Spec, args: seq<Arg>, a: nat, e: nat, bits: nat) returns (t: Printed)
    requires spec.WellFormed() && spec.Supplied(args, a) && IsInt(args, a + spec.Stars()) && bits == args[a + spec.Stars()].bits
    ensures ArgumentText('p', FieldOf(spec, args, a, e), args) == Some(t.Text())
    ensures PointerParts(spec, args, a, bits, t) == true
    ensures |t.shown| == |Body(bits, false, 16, spec.Precision(args, a), 8, spec.Meaning(args, a).(zeroPad := true, upper := true))|
  {
    var flags := spec.Meaning(args, a).(zeroPad := true, upper := true);
    PointerFlags(spec, args, a, bits, flags);
    PointerText(FieldOf(spec, args, a, e), args, bits);
    var lead, front, shown, trail := NumberParts(bits, false, 16, spec.Precision(args, a), 8, flags);
    t := Printed(lead, front, shown, trail);
  }

  /** Without a prefix the whole address is shown, in eight digits if no other flag and no precision is given. */
  lemma WholeAddress(spec: Spec, args: seq<Arg>, a: nat, bits: nat, t: Printed)
    requires spec.WellFormed() && spec.Supplied(args, a) && bits < UINT && !Has(spec.flags, '#')
    requires PointerParts(spec, args, a, bits, t) == true
    requires |t.shown| == |Body(bits, false, 16, spec.Precision(args, a), 8, spec.Meaning(args, a).(zeroPad := true, upper := true))|
    ensures Read(t.shown, 16, 0) == bits
    ensures spec.flags == "" && spec.precision.None? && !spec.Left(args, a) ==> |t.shown| == 8
  {
    var flags := spec.Meaning(args, a).(zeroPad := true, upper := true);
    PointerFlags(spec, args, a, bits, flags);
    PointerShows(bits, 16, spec.Precision(args, a), 8, flags);
    if spec.flags == "" && spec.precision.None? && !spec.Left(args, a) {
      EightPlaces(bits, 16);
      ShownLength(bits, false, 16, spec.Precision(args, a), 8, flags, Min(Digits(bits, 16), SCRATCH), 8);
    }
  }

  lemma EightPlaces(bits: nat, base: nat)
    requires bits < UINT && base == 16
    ensures Digits(bits, base) <= 8
  {
    assert Power(16, 4) == 0x1_0000;
    assert Power(16, 8) == 0x1_0000 * Power(16, 4);
    PlacesOf(bits, base, 8);
  }

  // ----- whole formats -----

  /** A format in pieces: text without a percent sign, and conversions. */
  datatype Piece = Plain(text: string) | Conv(spec: Spec, c: char)
  {
    function Written(): string {
      match this
      case Plain(text) => text
      case Conv(spec, c) => "%" + (spec.Written() + [c])
    }

    function Takes(): nat {
      match this
      case Plain(_) => 0
      case Conv(spec, c) => spec.Stars() + if TakesArgument(c) then 1 else 0
    }

    /** The piece is well-formed, and the arguments from a on are what it takes. */
    predicate Fits(args: seq<Arg>, a: nat) {
      match this
      case Plain(text) => forall i :: 0 <= i < |text| ==> text[i] != '%'
      case Conv(spec, c) =>
        && spec.WellFormed() && spec.Supplied(args, a) && IsSpecifier(c)
        && var b := a + spec.Stars();
           if c == 's' then IsText(args, b)
           else if IsInteger(c) && (spec.length == "ll" || spec.length == "j") then IsLong(args, b)
           else TakesArgument(c) ==> IsInt(args, b)
    }

    /** What the piece prints. */
    ghost predicate Prints(args: seq<Arg>, a: nat, s: string)
      requires Fits(args, a)
    {
      match this
      case Plain(text) => s == text
      case Conv(spec, c) =>
        if IsInteger(c) then PrintsInteger(spec, args, a, c, s)
        else if c == 'c' then PrintsText(spec, args, a, [(args[a + spec.Stars()].bits % 0x100) as char], s)
        else if c == 's' then PrintsText(spec, args, a, CutText(spec, args, a), s)
        else if c == 'p' then exists t: Printed :: s == t.Text() && PointerParts(spec, args, a, args[a + spec.Stars()].bits, t)
        else s == [c]
    }
  }

  ghost predicate PrintsInteger(spec: Spec, args: seq<Arg>, a: nat, c: char, s: string)
    requires spec.WellFormed() && spec.Supplied(args, a) && IsInteger(c)
  {
    exists v: int, t: Printed ::
      && IsArgument(args, a + spec.Stars(), spec.length, c == 'd' || c == 'i', v)
      && s == t.Text() && IntegerParts(spec, args, a, c, v, t)
  }

  ghost predicate PrintsText(spec: Spec, args: seq<Arg>, a: nat, shown: string, s: string)
    requires spec.WellFormed() && spec.Supplied(args, a)
  {
    exists lead, trail :: s == lead + shown + trail && SpacedOut(lead, shown, trail, spec.Width(args, a), spec.Left(args, a), false)
  }

  /** As much of a string as the precision says. */
  function CutText(spec: Spec, args: seq<Arg>, a: nat): string
    requires spec.WellFormed() && spec.Supplied(args, a) && IsText(args, a + spec.Stars())
  {
    var text := args[a + spec.Stars()].text;
    if spec.precision.None? || |text| <= spec.Precision(args, a) then text else text[..spec.Precision(args, a)]
  }

  lemma ArgumentHas(args: seq<Arg>, a: nat, length: string, signed: bool) returns (v: int)
    requires if length == "ll" || length == "j" then IsLong(args, a) else IsInt(args, a)
    ensures IsArgument(args, a, length, signed, v)
  {
    var m := ModulusOf(length);
    v := args[a].bits % m;
    if signed && length != "hh" && 2 * v >= m {
      v := v - m;
      HalfDown(args[a].bits, m, v);
    } else {
      HalfUp(args[a].bits, m, v);
    }
  }

  lemma HalfUp(bits: nat, m: nat, v: int)
    requires m > 0 && v == bits % m
    ensures 2 * v < m ==> TwosComplement(bits, m, v)
  {
    DivModUnique(v - bits, m, -(bits / m), 0);
  }

  lemma HalfDown(bits: nat, m: nat, v: int)
    requires m > 0 && v == bits % m - m && 2 * (v + m) >= m
    ensures TwosComplement(bits, m, v)
  {
    DivModUnique(v - bits, m, -(bits / m) - 1, 0);
  }

  lemma ConvText(spec: Spec, c: char, args: seq<Arg>, a: nat, f: Field) returns (s: string)
    requires Conv(spec, c).Fits(args, a) && TakesArgument(c) && f == FieldOf(spec, args, a, f.p)
    ensures ArgumentText(c, f, args) == Some(s) && Conv(spec, c).Prints(args, a, s) == true
  {
    if IsInteger(c) {
      var v := ArgumentHas(args, a + spec.Stars(), spec.length, c == 'd' || c == 'i');
      var t := IntegerPrinted(spec, args, a, c, v, f.p);
      s := t.Text();
    } else if c == 'c' {
      var shown := (args[a + spec.Stars()].bits % 0x100) as char;
      var lead, trail := CharPrinted(spec, args, a, f.p, shown);
      s := lead + [shown] + trail;
    } else if c == 's' {
      var lead, trail := StringPrinted(spec, args, a, f.p, CutText(spec, args, a));
      s := lead + CutText(spec, args, a) + trail;
    } else {
      var t := PointerPrinted(spec, args, a, f.p, args[a + spec.Stars()].bits);
      s := t.Text();
    }
  }

  /** What is shown for a field: the text of its argument, or the character itself. */
  lemma FieldText(spec: Spec, c: char, args: seq<Arg>, a: nat, f: Field) returns (s: string)
    requires Conv(spec, c).Fits(args, a) && f == FieldOf(spec, args, a, f.p)
    ensures Conv(spec, c).Prints(args, a, s) == true
    ensures if TakesArgument(c) then ArgumentText(c, f, args) == Some(s) else s == [c]
  {
    if TakesArgument(c) {
      s := ConvText(spec, c, args, a, f);
    } else {
      s := [c];
    }
  }

  /** Rendering adds s on the way from one place and argument to another. */
  ghost predicate Passes(format: string, args: seq<Arg>, p: nat, a: nat, s: string, p': nat, a': nat) {
    && p <= |format| && p' <= |format|
    && forall done: string :: Render(format, args, p, a, done) == Render(format, args, p', a', done + s)
  }

  lemma PassesOn(format: string, args: seq<Arg>, p: nat, a: nat, s: string, p': nat, a': nat, s': string, p'': nat, a'': nat)
    requires Passes(format, args, p, a, s, p', a') && Passes(format, args, p', a', s', p'', a'')
    ensures Passes(format, args, p, a, s + s', p'', a'') == true
  {
    forall done: string ensures Render(format, args, p, a, done) == Render(format, args, p'', a'', done + (s + s')) {
      assert done + (s + s') == done + s + s';
    }
  }

  lemma NothingPasses(format: string, args: seq<Arg>, p: nat, a: nat)
    requires p <= |format|
    ensures Passes(format, args, p, a, "", p, a) == true
  {
    forall done: string ensures Render(format, args, p, a, done) == Render(format, args, p, a, done + "") {
      assert done + "" == done;
    }
  }

  lemma OnePasses(format: string, args: seq<Arg>, p: nat, a: nat, c: char)
    requires p < |format| && format[p] == c && c != '%'
    ensures Passes(format, args, p, a, [c], p + 1, a) == true
  {
  }

  lemma {:induction false} PlainPasses(format: string, args: seq<Arg>, p: nat, a: nat, t: string)
    requires Stands(format, p, t) && forall i :: 0 <= i < |t| ==> t[i] != '%'
    ensures Passes(format, args, p, a, t, p + |t|, a) == true
    decreases |t|
  {
    if t == "" {
      NothingPasses(format, args, p, a);
    } else {
      FirstStands(format, p, t);
      OnePasses(format, args, p, a, t[0]);
      PlainPasses(format, args, p + 1, a, t[1..]);
      PassesOn(format, args, p, a, [t[0]], p + 1, a, t[1..], p + |t|, a);
      assert [t[0]] + t[1..] == t;
    }
  }

  lemma PercentStands(format: string, p: nat, w: string, c: char)
    requires Stands(format, p, "%" + (w + [c]))
    ensures p + 1 + |w| < |format| && format[p] == '%' && format[p + 1 + |w|] == c && Stands(format, p + 1, w + [c]) == true
    ensures |"%" + (w + [c])| == |w| + 2
  {
    var t := "%" + (w + [c]);
    FirstStands(format, p, t);
    assert t[1..] == w + [c];
    Prefixes(format, p + 1, w, [c]);
    FirstStands(format, p + 1 + |w|, [c]);
  }

  lemma FieldPasses(format: string, args: seq<Arg>, p: nat, a: nat, f: Field, c: char, s: string)
    requires p < |format| && format[p] == '%' && FieldFrom(format, args, p + 1, a) == Some(f)
    requires f.p < |format| && format[f.p] == c
    requires if TakesArgument(c) then ArgumentText(c, f, args) == Some(s) else s == [c]
    ensures Passes(format, args, p, a, s, f.p + 1, f.a + if TakesArgument(c) then 1 else 0) == true
  {
    assert Conversion(format, args, p + 1, a) == Some(Stage(f.p + 1, f.a + (if TakesArgument(c) then 1 else 0), s));
  }

  lemma ReadsPasses(format: string, args: seq<Arg>, p: nat, a: nat, spec: Spec, e: nat, c: char, s: string)
    requires spec.WellFormed() && spec.Supplied(args, a) && ReadsAs(format, args, p + 1, a, spec, e)
    requires p < |format| && format[p] == '%' && e < |format| && format[e] == c
    requires if TakesArgument(c) then ArgumentText(c, FieldOf(spec, args, a, e), args) == Some(s) else s == [c]
    ensures Passes(format, args, p, a, s, e + 1, a + spec.Stars() + if TakesArgument(c) then 1 else 0) == true
  {
    FieldPasses(format, args, p, a, FieldOf(spec, args, a, e), c, s);
  }

  lemma ConvReads(format: string, args: seq<Arg>, p: nat, a: nat, spec: Spec, c: char, w: string, e: nat)
    requires spec.WellFormed() && spec.Supplied(args, a) && IsSpecifier(c) && w == spec.Written() && e == p + 1 + |w|
    requires Stands(format, p, "%" + (w + [c])) == true
    ensures p < |format| && format[p] == '%' && e < |format| && format[e] == c && ReadsAs(format, args, p + 1, a, spec, e) == true
  {
    PercentStands(format, p, w, c);
    ReadsField(format, p + 1, spec, c, args, a, e);
  }

  lemma ConvPiece(format: string, args: seq<Arg>, p: nat, a: nat, spec: Spec, c: char, w: string, e: nat) returns (s: string)
    requires Conv(spec, c).Fits(args, a) && w == spec.Written() && e == p + 1 + |w| && Stands(format, p, "%" + (w + [c])) == true
    ensures Conv(spec, c).Prints(args, a, s) == true
    ensures Passes(format, args, p, a, s, e + 1, a + spec.Stars() + if TakesArgument(c) then 1 else 0) == true
  {
    s := FieldText(spec, c, args, a, FieldOf(spec, args, a, e));
    ConvReads(format, args, p, a, spec, c, w, e);
    ReadsPasses(format, args, p, a, spec, e, c, s);
  }

  lemma ConvIs(spec: Spec, c: char, w: string)
    requires w == spec.Written()
    ensures Conv(spec, c).Written() == "%" + (w + [c]) && |Conv(spec, c).Written()| == |w| + 2
    ensures Conv(spec, c).Takes() == spec.Stars() + if TakesArgument(c) then 1 else 0
  {
  }

  lemma PlainPiece(format: string, args: seq<Arg>, p: nat, a: nat, t: string)
    requires Plain(t).Fits(args, a) && Stands(format, p, Plain(t).Written())
    ensures Plain(t).Prints(args, a, t) == true
    ensures Passes(format, args, p, a, t, p + |Plain(t).Written()|, a + Plain(t).Takes()) == true
  {
    PlainPasses(format, args, p, a, t);
  }

  lemma PiecePasses(piece: Piece, format: string, args: seq<Arg>, p: nat, a: nat, p': nat, a': nat) returns (s: string)
    requires piece.Fits(args, a) == true && Stands(format, p, piece.Written()) == true
    requires p' == p + |piece.Written()| && a' == a + piece.Takes()
    ensures piece.Prints(args, a, s) == true && Passes(format, args, p, a, s, p', a') == true
  {
    match piece
    case Plain(t) =>
      PlainPiece(format, args, p, a, t);
      s := t;
    case Conv(spec, c) =>
      ConvIs(spec, c, spec.Written());
      s := ConvPiece(format, args, p, a, spec, c, spec.Written(), p + 1 + |spec.Written()|);
  }

  /** The format: the written pieces one after the other. */
  function WrittenAll(ps: seq<Piece>): string {
    if ps == [] then "" else WrittenAll(ps[..|ps| - 1]) + ps[|ps| - 1].Written()
  }

  function Joined(shown: seq<string>): string {
    if shown == [] then "" else Joined(shown[..|shown| - 1]) + shown[|shown| - 1]
  }

  /** The pieces are well-formed; the arguments of piece i are those from at[i] on. */
  ghost predicate AllFit(ps: seq<Piece>, args: seq<Arg>, at: seq<nat>) {
    && |at| == |ps| + 1 && at[0] == 0
    && forall i :: 0 <= i < |ps| ==> ps[i].Fits(args, at[i]) && at[i + 1] == at[i] + ps[i].Takes()
  }

  ghost predicate AllPrint(ps: seq<Piece>, args: seq<Arg>, at: seq<nat>, shown: seq<string>)
    requires AllFit(ps, args, at)
  {
    |shown| <= |ps| && forall i :: 0 <= i < |shown| ==> ps[i].Prints(args, at[i], shown[i])
  }

  lemma {:induction false} PieceStands(ps: seq<Piece>, i: nat, format: string)
    requires i < |ps| && |WrittenAll(ps)| <= |format| && format[..|WrittenAll(ps)|] == WrittenAll(ps)
    ensures Stands(format, |WrittenAll(ps[..i])|, ps[i].Written()) == true
    ensures |WrittenAll(ps[..i + 1])| == |WrittenAll(ps[..i])| + |ps[i].Written()|
  {
    var n := |ps| - 1;
    var before := ps[..n];
    assert WrittenAll(ps) == WrittenAll(before) + ps[n].Written();
    if i == n {
      assert ps[..i + 1] == ps;
    } else {
      assert before[..i] == ps[..i] && before[..i + 1] == ps[..i + 1] && before[i] == ps[i];
      assert format[..|WrittenAll(before)|] == WrittenAll(ps)[..|WrittenAll(before)|];
      PieceStands(before, i, format);
    }
  }

  lemma NextFits(ps: seq<Piece>, args: seq<Arg>, at: seq<nat>, i: nat)
    requires AllFit(ps, args, at) && i < |ps|
    ensures ps[i].Fits(args, at[i]) == true && at[i + 1] == at[i] + ps[i].Takes()
  {
  }

  lemma NextPrints(ps: seq<Piece>, args: seq<Arg>, at: seq<nat>, shown: seq<string>, s: string)
    requires AllFit(ps, args, at) && AllPrint(ps, args, at, shown) && |shown| < |ps|
    requires ps[|shown|].Prints(args, at[|shown|], s) == true
    ensures AllPrint(ps, args, at, shown + [s]) == true
  {
    forall i | 0 <= i < |shown + [s]| ensures ps[i].Prints(args, at[i], (shown + [s])[i]) {
      if i < |shown| {
        assert (shown + [s])[i] == shown[i];
      }
    }
  }

  lemma JoinedNext(shown: seq<string>, s: string)
    ensures Joined(shown + [s]) == Joined(shown) + s
  {
    assert (shown + [s])[..|shown|] == shown;
  }

  lemma PassesToEnd(format: string, args: seq<Arg>, a: nat, text: string)
    requires Passes(format, args, 0, 0, text, |format|, a)
    ensures Render(format, args, 0, 0, "") == Some(text)
  {
    assert "" + text == text;
  }

  /** A format prints its pieces in order, each with its own arguments. */
  lemma FormatPrints(ps: seq<Piece>, args: seq<Arg>, at: seq<nat>, format: string) returns (shown: seq<string>)
    requires AllFit(ps, args, at) == true && format == WrittenAll(ps)
    ensures Render(format, args, 0, 0, "") == Some(Joined(shown))
    ensures |shown| == |ps| && AllPrint(ps, args, at, shown) == true
  {
    shown := [];
    var p := 0;
    AtStart(ps, args, at, format);
    for i := 0 to |ps|
      invariant |shown| == i && AllPrint(ps, args, at, shown) == true && p == |WrittenAll(ps[..i])|
      invariant Passes(format, args, 0, 0, Joined(shown), p, at[i]) == true
    {
      var p' := |WrittenAll(ps[..i + 1])|;
      PieceStands(ps, i, format);
      NextFits(ps, args, at, i);
      var s := PiecePasses(ps[i], format, args, p, at[i], p', at[i + 1]);
      NextPrints(ps, args, at, shown, s);
      JoinedNext(shown, s);
      PassesOn(format, args, 0, 0, Joined(shown), p, at[i], s, p', at[i + 1]);
      shown := shown + [s];
      p := p';
    }
    assert ps[..|ps|] == ps;
    PassesToEnd(format, args, at[|ps|], Joined(shown));
  }

  lemma AtStart(ps: seq<Piece>, args: seq<Arg>, at: seq<nat>, format: string)
    requires AllFit(ps, args, at) && format == WrittenAll(ps)
    ensures |at| == |ps| + 1 && |WrittenAll(ps[..0])| == 0 && format[..|WrittenAll(ps)|] == WrittenAll(ps)
    ensures Passes(format, args, 0, 0, Joined([]), 0, at[0]) == true && AllPrint(ps, args, at, []) == true
  {
    NothingPasses(format, args, 0, 0);
  }
}
