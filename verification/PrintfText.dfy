/** What the embedded printf prints: the text of a format and its arguments, with nothing said about buffers. */
module PrintfText {

  import opened Words

  /** The size of the scratch buffer of a number. */
  const SCRATCH: nat := 32

  datatype Flags = Flags(zeroPad: bool, left: bool, plus: bool, space: bool, hash: bool, upper: bool,
                         char_: bool, short: bool, long: bool, longLong: bool, precision: bool)

  const NO_FLAGS := Flags(false, false, false, false, false, false, false, false, false, false, false)

  /** A variadic argument: a 32-bit word (int, long, pointer), a 64-bit one, or a string. */
  datatype Arg = Int(bits: nat) | Long(bits: nat) | Text(text: string)

  /** A C string has no NUL before its end. */
  predicate IsCString(s: string) { forall i :: 0 <= i < |s| ==> s[i] != '\0' }

  // ----- numbers -----

  /** The n-bit two's complement number, where half is 2^(n-1). */
  function Signed(bits: nat, half: nat): int {
    if bits < half then bits else bits - 2 * half
  }

  function Abs(x: int): nat { if x < 0 then -x else x }

  function Min(x: int, y: int): int { if x < y then x else y }

  function Repeat(c: char, n: int): (s: string)
    ensures |s| == if n < 0 then 0 else n
    ensures forall i :: 0 <= i < |s| ==> s[i] == c
  {
    if n <= 0 then "" else Repeat(c, n - 1) + [c]
  }

  function Reverse(s: string): (r: string)
    ensures |r| == |s|
  {
    if s == "" then "" else Reverse(s[1..]) + [s[0]]
  }

  lemma Regroup(a: string, b: string, c: string)
    ensures a + (b + c) == a + b + c
  {
  }

  function DigitChar(d: nat, upper: bool): char
    requires d < 36
  {
    if d < 10 then '0' + d as char else (if upper then 'A' else 'a') + (d - 10) as char
  }

  predicate IsBase(base: nat) { base == 2 || base == 8 || base == 10 || base == 16 }

  /** value / base and value % base, one case for each base so that every divisor is a literal. */
  function Quotient(value: nat, base: nat): nat
    requires IsBase(base)
  {
    if base == 2 then value / 2 else if base == 8 then value / 8 else if base == 10 then value / 10 else value / 16
  }

  function Remainder(value: nat, base: nat): (r: nat)
    requires IsBase(base)
    ensures r < base
  {
    if base == 2 then value % 2 else if base == 8 then value % 8 else if base == 10 then value % 10 else value % 16
  }

  /** The last n digits, or all if there are fewer, the last one first. */
  function RevDigits(value: nat, base: nat, upper: bool, n: nat): (s: string)
    requires IsBase(base) && n > 0
    ensures 0 < |s| <= n
    decreases n
  {
    var digit := DigitChar(Remainder(value, base), upper);
    if Quotient(value, base) == 0 || n == 1 then [digit] else [digit] + RevDigits(Quotient(value, base), base, upper, n - 1)
  }

  function Filled(s: string, n: nat): string {
    s + Repeat('0', Min(n, SCRATCH) - |s|)
  }

  /** One character more, if the scratch buffer has room for it. */
  function Appended(s: string, c: char): string {
    if |s| < SCRATCH then s + [c] else s
  }

  /** The leading digits make room for a prefix when they fill the width, whether or not they are only padding. */
  function Kept(s: string, base: nat, prec: nat, width: nat, flags: Flags): string {
    var n := |s|;
    if !flags.precision && n > 0 && (n == prec || n == width)
    then (if n > 1 && base == 16 then s[..n - 2] else s[..n - 1]) else s
  }

  /** Digits and the prefix of their base. */
  function Marked(s: string, base: nat, flags: Flags): string {
    var marked := if base == 16 then Appended(s, if flags.upper then 'X' else 'x')
                  else if base == 2 then Appended(s, 'b') else s;
    Appended(marked, '0')
  }

  /** The alternative form. */
  function Prefixed(s: string, base: nat, prec: nat, width: nat, flags: Flags): string {
    Marked(Kept(s, base, prec, width, flags), base, flags)
  }

  function SignedForm(s: string, negative: bool, flags: Flags): string {
    if negative then Appended(s, '-') else if flags.plus then Appended(s, '+') else if flags.space then Appended(s, ' ') else s
  }

  /** The width that zeros may fill: one column is kept for a sign. */
  function FillWidth(negative: bool, width: nat, flags: Flags): nat {
    if width > 0 && flags.zeroPad && (negative || flags.plus || flags.space) then width - 1 else width
  }

  function Zeros(s: string, negative: bool, prec: nat, width: nat, flags: Flags): string {
    if flags.left then s
    else
      var t := Filled(s, prec);
      if flags.zeroPad then Filled(t, FillWidth(negative, width, flags)) else t
  }

  /** Nothing at all for a zero with a precision. */
  function DigitsOf(value: nat, base: nat, flags: Flags): string
    requires IsBase(base)
  {
    if flags.precision && value == 0 then "" else RevDigits(value, base, flags.upper, SCRATCH)
  }

  /** The scratch buffer of a number: its digits, zeros, prefix and sign, last character first. */
  function Scratch(value: nat, negative: bool, base: nat, prec: nat, width: nat, flags: Flags): string
    requires IsBase(base)
  {
    var filled := Zeros(DigitsOf(value, base, flags), negative, prec, width, flags);
    var prefixed := if flags.hash && value != 0
                    then Prefixed(filled, base, prec, if flags.left then width else FillWidth(negative, width, flags), flags)
                    else filled;
    SignedForm(prefixed, negative, flags)
  }

  function Justified(s: string, width: nat, flags: Flags): string {
    (if !flags.left && !flags.zeroPad then Repeat(' ', width - |s|) else "") + s
    + (if flags.left then Repeat(' ', width - |s|) else "")
  }

  lemma NoPrefixOfZero(value: nat, negative: bool, base: nat, prec: nat, width: nat, flags: Flags)
    requires IsBase(base) && value == 0
    ensures NumberText(value, negative, base, prec, width, flags.(hash := false))
         == NumberText(value, negative, base, prec, width, flags)
  {
    var plain := flags.(hash := false);
    var digits := DigitsOf(value, base, flags);
    assert DigitsOf(value, base, plain) == digits;
    ZerosIgnorePrefix(digits, negative, prec, width, flags);
    var zeros := Zeros(digits, negative, prec, width, flags);
    assert SignedForm(zeros, negative, plain) == SignedForm(zeros, negative, flags);
  }

  lemma ZerosIgnorePrefix(s: string, negative: bool, prec: nat, width: nat, flags: Flags)
    ensures Zeros(s, negative, prec, width, flags.(hash := false)) == Zeros(s, negative, prec, width, flags)
  {
  }

  function NumberText(value: nat, negative: bool, base: nat, prec: nat, width: nat, flags: Flags): string
    requires IsBase(base)
  {
    Justified(Reverse(Scratch(value, negative, base, prec, width, flags)), width, flags)
  }

  /** A character or a string between spaces; `length` is what the width is compared with. */
  function Padded(s: string, length: nat, width: nat, left: bool): string {
    if left then s + Repeat(' ', width - length) else Repeat(' ', width - length) + s
  }

  // ----- the grammar of a format -----

  /** The character at p; a format ends with a NUL. */
  function At(format: string, p: nat): char { if p < |format| then format[p] else '\0' }

  predicate IsDigit(c: char) { '0' <= c <= '9' }

  /** A decimal number modulo 2^32, and where it ends. */
  function Number(s: string, p: nat, start: nat): (r: (nat, nat))
    ensures r.1 >= p && (r.1 > p ==> r.1 <= |s|)
    decreases |s| - p
  {
    if IsDigit(At(s, p)) then Number(s, p + 1, (start * 10 + (At(s, p) - '0') as nat) % UINT) else (start, p)
  }

  predicate IsFlag(c: char) { c == '0' || c == '-' || c == '+' || c == ' ' || c == '#' }

  function WithFlag(flags: Flags, c: char): Flags {
    flags.(zeroPad := flags.zeroPad || c == '0', left := flags.left || c == '-', plus := flags.plus || c == '+',
           space := flags.space || c == ' ', hash := flags.hash || c == '#')
  }

  function FlagsFrom(format: string, p: nat, flags: Flags): (r: (Flags, nat))
    ensures r.1 >= p && (r.1 > p ==> r.1 <= |format|) && r.0.precision == flags.precision
    decreases |format| - p
  {
    if IsFlag(At(format, p)) then FlagsFrom(format, p + 1, WithFlag(flags, At(format, p))) else (flags, p)
  }

  /** What a conversion asks for, where its specifier is, and the next argument. */
  datatype Field = Field(flags: Flags, width: nat, precision: nat, p: nat, a: nat)

  predicate IsInt(args: seq<Arg>, a: nat) { a < |args| && args[a].Int? && args[a].bits < UINT }

  predicate IsLong(args: seq<Arg>, a: nat) { a < |args| && args[a].Long? && args[a].bits < UINT * UINT }

  predicate IsText(args: seq<Arg>, a: nat) { a < |args| && args[a].Text? && IsCString(args[a].text) }

  function WidthFrom(format: string, args: seq<Arg>, f: Field): (r: Option<Field>)
    ensures r.Some? ==> r.value.p >= f.p && (r.value.p > f.p ==> r.value.p <= |format|)
  {
    if IsDigit(At(format, f.p)) then
      var (width, p) := Number(format, f.p, 0);
      Some(f.(width := width, p := p))
    else if At(format, f.p) == '*' then
      if !IsInt(args, f.a) then None
      else
        var w := Signed(args[f.a].bits, UINT / 2);
        var left := f.flags.left || w < 0;
        Some(f.(flags := f.flags.(left := left), width := Abs(w), p := f.p + 1, a := f.a + 1))
    else Some(f)
  }

  function PrecisionFrom(format: string, args: seq<Arg>, f: Field): (r: Option<Field>)
    ensures r.Some? ==> r.value.p >= f.p && (r.value.p > f.p ==> r.value.p <= |format|)
  {
    if At(format, f.p) != '.' then Some(f)
    else
      var g := f.(flags := f.flags.(precision := true), p := f.p + 1);
      if IsDigit(At(format, g.p)) then
        var (precision, p) := Number(format, g.p, 0);
        Some(g.(precision := precision, p := p))
      else if At(format, g.p) == '*' then
        if !IsInt(args, g.a) then None
        else
          var w := Signed(args[g.a].bits, UINT / 2);
          Some(g.(precision := if w > 0 then w else 0, p := g.p + 1, a := g.a + 1))
      else Some(g)
  }

  function LengthFrom(format: string, f: Field): (r: Field)
    ensures r.p >= f.p && (r.p > f.p ==> r.p <= |format|)
  {
    match At(format, f.p)
    case 'l' =>
      if At(format, f.p + 1) == 'l' then f.(flags := f.flags.(long := true, longLong := true), p := f.p + 2)
      else f.(flags := f.flags.(long := true), p := f.p + 1)
    case 'h' =>
      if At(format, f.p + 1) == 'h' then f.(flags := f.flags.(short := true, char_ := true), p := f.p + 2)
      else f.(flags := f.flags.(short := true), p := f.p + 1)
    case 't' => f.(flags := f.flags.(long := true), p := f.p + 1)
    case 'j' => f.(flags := f.flags.(longLong := true), p := f.p + 1)
    case 'z' => f.(flags := f.flags.(long := true), p := f.p + 1)
    case _ => f
  }

  /** The part of a conversion between the percent sign and the specifier. */
  function FieldFrom(format: string, args: seq<Arg>, p: nat, a: nat): (r: Option<Field>)
    requires p <= |format|
    ensures r.Some? ==> p <= r.value.p <= |format|
  {
    var (flags, q) := FlagsFrom(format, p, NO_FLAGS);
    match WidthFrom(format, args, Field(flags, 0, 0, q, a))
    case None => None
    case Some(f) =>
      match PrecisionFrom(format, args, f)
      case None => None
      case Some(g) => Some(LengthFrom(format, g))
  }

  // ----- the conversions -----

  function BaseOf(c: char): nat {
    if c == 'x' || c == 'X' then 16 else if c == 'o' then 8 else if c == 'b' then 2 else 10
  }

  /** The flags that matter to an integer conversion. */
  function IntegerFlags(c: char, flags: Flags): Flags {
    var signed := c == 'd' || c == 'i';
    flags.(hash := flags.hash && BaseOf(c) != 10, upper := flags.upper || c == 'X', plus := flags.plus && signed,
           space := flags.space && signed, zeroPad := flags.zeroPad && !flags.precision)
  }

  /** The value that a signed conversion prints (`char` is unsigned here). */
  function SignedValue(args: seq<Arg>, a: nat, flags: Flags): Option<int> {
    if flags.longLong then (if IsLong(args, a) then Some(Signed(args[a].bits, UINT * (UINT / 2))) else None)
    else if !IsInt(args, a) then None
    else if flags.long then Some(Signed(args[a].bits, UINT / 2))
    else if flags.char_ then Some(args[a].bits % 0x100)
    else if flags.short then Some(Signed(args[a].bits % 0x1_0000, 0x8000))
    else Some(Signed(args[a].bits, UINT / 2))
  }

  function UnsignedValue(args: seq<Arg>, a: nat, flags: Flags): Option<nat> {
    if flags.longLong then (if IsLong(args, a) then Some(args[a].bits) else None)
    else if !IsInt(args, a) then None
    else if flags.long then Some(args[a].bits)
    else if flags.char_ then Some(args[a].bits % 0x100)
    else if flags.short then Some(args[a].bits % 0x1_0000)
    else Some(args[a].bits)
  }

  predicate IsInteger(c: char) { c == 'd' || c == 'i' || c == 'u' || c == 'x' || c == 'X' || c == 'o' || c == 'b' }

  function IntegerText(c: char, f: Field, args: seq<Arg>): Option<string> {
    var flags := IntegerFlags(c, f.flags);
    if c == 'd' || c == 'i' then
      match SignedValue(args, f.a, f.flags)
      case None => None
      case Some(v) => Some(NumberText(Abs(v), v < 0, BaseOf(c), f.precision, f.width, flags))
    else
      match UnsignedValue(args, f.a, f.flags)
      case None => None
      case Some(v) => Some(NumberText(v, false, BaseOf(c), f.precision, f.width, flags))
  }

  function CharText(f: Field, args: seq<Arg>): Option<string> {
    if !IsInt(args, f.a) then None
    else Some(Padded([(args[f.a].bits % 0x100) as char], 1, f.width, f.flags.left))
  }

  function StringShown(s: string, f: Field): string {
    if f.flags.precision then s[..Min(|s|, f.precision)] else s
  }

  /** A string up to its NUL, or up to the precision if one is given. */
  function StringText(f: Field, args: seq<Arg>): Option<string> {
    if !IsText(args, f.a) then None
    else
      var shown := StringShown(args[f.a].text, f);
      Some(Padded(shown, Min(|shown|, UINT - 1), f.width, f.flags.left))
  }

  function PointerText(f: Field, args: seq<Arg>): Option<string> {
    if !IsInt(args, f.a) then None
    else Some(NumberText(args[f.a].bits, false, 16, f.precision, 8, f.flags.(zeroPad := true, upper := true)))
  }

  /** One conversion: where the format and the arguments go on, and its text. */
  datatype Stage = Stage(p: nat, a: nat, shown: string)

  /** The text that a specifier prints of its argument; none if the argument is missing or of the wrong type. */
  function ArgumentText(c: char, f: Field, args: seq<Arg>): Option<string> {
    if c == 'c' then CharText(f, args)
    else if c == 's' then StringText(f, args)
    else if c == 'p' then PointerText(f, args)
    else IntegerText(c, f, args)
  }

  predicate TakesArgument(c: char) { IsInteger(c) || c == 'c' || c == 's' || c == 'p' }

  /** From the specifier on: the percent sign and an unknown specifier print themselves. */
  function Converted(format: string, f: Field, args: seq<Arg>): (r: Option<Stage>)
    requires f.p < |format|
    ensures r.Some? ==> r.value.p == f.p + 1
  {
    if !TakesArgument(format[f.p]) then Some(Stage(f.p + 1, f.a, [format[f.p]]))
    else
      match ArgumentText(format[f.p], f, args)
      case None => None
      case Some(t) => Some(Stage(f.p + 1, f.a + 1, t))
  }

  /** None if the format ends inside the conversion or its argument is missing or of the wrong type. */
  function Conversion(format: string, args: seq<Arg>, p: nat, a: nat): (r: Option<Stage>)
    requires p <= |format|
    ensures r.Some? ==> p < r.value.p <= |format|
  {
    match FieldFrom(format, args, p, a)
    case None => None
    case Some(f) => if f.p == |format| then None else Converted(format, f, args)
  }

  /** The whole text: `done`, then what the format from p on asks for, with the arguments from a on. */
  function Render(format: string, args: seq<Arg>, p: nat, a: nat, done: string): Option<string>
    requires p <= |format|
    decreases |format| - p
  {
    if p == |format| then Some(done)
    else if format[p] != '%' then Render(format, args, p + 1, a, done + [format[p]])
    else
      match Conversion(format, args, p + 1, a)
      case None => None
      case Some(t) => Render(format, args, t.p, t.a, done + t.shown)
  }

  // ----- the output buffer -----

  /** A write at idx, lost if it is not below the limit. */
  function Put(b: seq<char>, limit: nat, idx: nat, c: char): (r: seq<char>)
    requires limit <= |b|
    ensures |r| == |b|
  {
    if idx < limit then b[idx := c] else b
  }

  /** All characters of a text written one after another; the index is a 32-bit number. */
  function PutAll(b: seq<char>, limit: nat, text: string): (r: seq<char>)
    requires limit <= |b|
    ensures |r| == |b|
  {
    if text == "" then b
    else
      var n := |text| - 1;
      Put(PutAll(b, limit, text[..n]), limit, n % UINT, text[n])
  }

  /** What `_vsnprintf` leaves in the buffer: the text and then a NUL, in the last place if the text is too long. */
  function Final(b: seq<char>, limit: nat, text: string): seq<char>
    requires limit <= |b|
  {
    var idx := |text| % UINT;
    Put(PutAll(b, limit, text), limit, if idx < limit then idx else (limit - 1) % UINT, '\0')
  }

  /** The return value, a 32-bit int. */
  function Returned(text: string): int { Signed(|text| % UINT, UINT / 2) }
}
