/** The embedded printf: a format interpreter that writes through a cursor into a buffer of limited size. */
module Printf {
  import opened PrintfText
  import opened Words
  import opened PrintfLaws

  /** The buffer is what writing `text` into b0 leaves (a null buffer takes nothing), and idx counts the characters. */
  ghost predicate Shows(buffer: array?<char>, limit: nat, b0: seq<char>, text: string, idx: nat)
    reads buffer
  {
    && idx == |text| % UINT && limit <= |b0| && limit < UINT
    && (buffer != null ==> buffer[..] == PutAll(b0, limit, text))
  }

  /** `_out_buffer`, or `_out_null` if there is no buffer. */
  method Out(c: char, buffer: array?<char>, idx: nat, limit: nat, ghost b0: seq<char>, ghost text: string)
    returns (idx': nat)
    requires Shows(buffer, limit, b0, text, idx)
    modifies buffer
    ensures Shows(buffer, limit, b0, text + [c], idx')
  {
    assert (text + [c])[..|text|] == text;
    if buffer != null {
      if idx < limit {
        buffer[idx] := c;
      }
    }
    idx' := (idx + 1) % UINT;
  }

  /** n copies of c: the loops that pad. */
  method OutRepeated(c: char, n: int, buffer: array?<char>, idx: nat, limit: nat, ghost b0: seq<char>, ghost text: string)
    returns (idx': nat)
    requires Shows(buffer, limit, b0, text, idx)
    modifies buffer
    ensures Shows(buffer, limit, b0, text + Repeat(c, n), idx')
  {
    idx' := idx;
    var i := 0;
    assert text + Repeat(c, 0) == text;
    while i < n
      invariant 0 <= i && (i <= n || i == 0)
      invariant Shows(buffer, limit, b0, text + Repeat(c, i), idx')
    {
      idx' := Out(c, buffer, idx', limit, b0, text + Repeat(c, i));
      i := i + 1;
      assert text + Repeat(c, i) == text + Repeat(c, i - 1) + [c];
    }
    if n < 0 {
      assert Repeat(c, n) == Repeat(c, 0);
    }
  }

  /** `_out_rev`: the scratch buffer backwards, between spaces up to the width. */
  method OutRev(buffer: array?<char>, idx: nat, limit: nat, buf: array<char>, len: nat, width: nat, flags: Flags,
                ghost b0: seq<char>, ghost text: string)
    returns (idx': nat)
    requires Shows(buffer, limit, b0, text, idx)
    requires buf != buffer && len <= buf.Length <= SCRATCH && width < UINT
    modifies buffer
    ensures Shows(buffer, limit, b0, text + Justified(Reverse(buf[..len]), width, flags), idx')
  {
    ghost var digits := buf[..len];
    ghost var spaces := if !flags.left && !flags.zeroPad then Repeat(' ', width - len) else "";
    idx' := idx;
    if !flags.left && !flags.zeroPad {
      idx' := OutRepeated(' ', width - len, buffer, idx', limit, b0, text);
    }
    assert text + "" == text;
    idx' := OutBackwards(buffer, idx', limit, buf, len, b0, text + spaces);
    ghost var shown := spaces + Reverse(digits);
    assert text + spaces + Reverse(digits) == text + shown;
    if flags.left {
      assert shown == Reverse(digits);
      idx' := OutUpTo(buffer, idx', limit, idx, width, b0, text, shown);
      assert text + shown + Repeat(' ', width - |shown|) == text + (shown + Repeat(' ', width - |shown|));
    }
    assert text + (shown + "") == text + shown;
  }

  method OutBackwards(buffer: array?<char>, idx: nat, limit: nat, buf: array<char>, len: nat,
                      ghost b0: seq<char>, ghost text: string)
    returns (idx': nat)
    requires Shows(buffer, limit, b0, text, idx) && buf != buffer && len <= buf.Length
    modifies buffer
    ensures Shows(buffer, limit, b0, text + Reverse(buf[..len]), idx')
  {
    ghost var digits := buf[..len];
    idx' := idx;
    var n := len;
    assert text + Reverse(digits[n..]) == text;
    while n > 0
      invariant n <= len && buf[..len] == digits
      invariant Shows(buffer, limit, b0, text + Reverse(digits[n..]), idx')
    {
      n := n - 1;
      idx' := Out(buf[n], buffer, idx', limit, b0, text + Reverse(digits[n + 1..]));
      assert digits[n..][1..] == digits[n + 1..];
      assert text + Reverse(digits[n..]) == text + Reverse(digits[n + 1..]) + [digits[n]];
    }
    assert digits[0..] == digits;
  }

  /** Spaces while fewer than `width` characters have been written since `start`; the count is modulo 2^32. */
  method OutUpTo(buffer: array?<char>, idx: nat, limit: nat, start: nat, width: nat,
                 ghost b0: seq<char>, ghost text: string, ghost shown: string)
    returns (idx': nat)
    requires Shows(buffer, limit, b0, text + shown, idx) && start == |text| % UINT && width < UINT && |shown| <= SCRATCH
    modifies buffer
    ensures Shows(buffer, limit, b0, text + shown + Repeat(' ', width - |shown|), idx')
  {
    idx' := idx;
    ghost var n := 0;
    assert text + shown + Repeat(' ', 0) == text + shown;
    while (idx' - start) % UINT < width
      invariant Shows(buffer, limit, b0, text + shown + Repeat(' ', n), idx')
      invariant 0 <= n && (|shown| + n <= width || n == 0)
      decreases width - n
    {
      Counted(|text|, |shown| + n);
      idx' := Out(' ', buffer, idx', limit, b0, text + shown + Repeat(' ', n));
      assert text + shown + Repeat(' ', n + 1) == text + shown + Repeat(' ', n) + [' '];
      n := n + 1;
    }
    Counted(|text|, |shown| + n);
    if n == 0 {
      assert Repeat(' ', width - |shown|) == Repeat(' ', n);
    }
  }

  /** Fewer than 2^32 characters are counted rightly even when the index wraps around. */
  lemma Counted(before: nat, n: nat)
    requires n < UINT
    ensures ((before + n) % UINT - before % UINT) % UINT == n
  {
  }

  method Fill(buf: array<char>, len: nat, n: nat) returns (len': nat)
    requires len <= buf.Length == SCRATCH
    modifies buf
    ensures len' <= SCRATCH && buf[..len'] == Filled(old(buf[..len]), n)
  {
    ghost var s := buf[..len];
    len' := len;
    while len' < n && len' < SCRATCH
      invariant len <= len' <= SCRATCH && buf[..len'] == s + Repeat('0', len' - len)
      invariant len' == len || len' <= n
    {
      buf[len'] := '0';
      assert buf[..len' + 1] == buf[..len'] + ['0'];
      len' := len' + 1;
    }
  }

  method Append(buf: array<char>, len: nat, c: char) returns (len': nat)
    requires len <= buf.Length == SCRATCH
    modifies buf
    ensures len' <= SCRATCH && buf[..len'] == Appended(old(buf[..len]), c)
  {
    len' := len;
    if len < SCRATCH {
      buf[len] := c;
      len' := len + 1;
      assert buf[..len'] == buf[..len] + [c];
    }
  }

  /** The part of `_ntoa_format` for the alternative form. */
  method AddPrefix(buf: array<char>, len: nat, base: nat, prec: nat, width: nat, flags: Flags) returns (len': nat)
    requires len <= buf.Length == SCRATCH && IsBase(base)
    modifies buf
    ensures len' <= SCRATCH && buf[..len'] == Prefixed(old(buf[..len]), base, prec, width, flags)
  {
    len' := len;
    ghost var s := buf[..len];
    if !flags.precision && len' > 0 && (len' == prec || len' == width) {
      len' := len' - 1;
      if len' > 0 && base == 16 {
        len' := len' - 1;
      }
      assert buf[..len'] == s[..len'];
    }
    if base == 16 && !flags.upper {
      len' := Append(buf, len', 'x');
    } else if base == 16 && flags.upper {
      len' := Append(buf, len', 'X');
    } else if base == 2 {
      len' := Append(buf, len', 'b');
    }
    len' := Append(buf, len', '0');
  }

  /** `_ntoa_format`. */
  method NtoaFormat(buffer: array?<char>, idx: nat, limit: nat, buf: array<char>, len: nat, value: nat, negative: bool,
                    base: nat, prec: nat, width: nat, flags: Flags, ghost b0: seq<char>, ghost text: string)
    returns (idx': nat)
    requires Shows(buffer, limit, b0, text, idx) && buf != buffer && len <= buf.Length == SCRATCH && width < UINT
    requires IsBase(base)
    requires buf[..len] == DigitsOf(value, base, flags)
    requires value == 0 ==> !flags.hash
    modifies buffer, buf
    ensures Shows(buffer, limit, b0, text + NumberText(value, negative, base, prec, width, flags), idx')
  {
    var len', w := AddZeros(buf, len, negative, prec, width, flags);
    if flags.hash {
      len' := AddPrefix(buf, len', base, prec, w, flags);
    }
    len' := AddSign(buf, len', negative, flags);
    idx' := OutRev(buffer, idx, limit, buf, len', w, flags, b0, text);
  }

  method AddZeros(buf: array<char>, len: nat, negative: bool, prec: nat, width: nat, flags: Flags) returns (len': nat, w: nat)
    requires len <= buf.Length == SCRATCH
    modifies buf
    ensures len' <= SCRATCH && buf[..len'] == Zeros(old(buf[..len]), negative, prec, width, flags)
    ensures w == if flags.left then width else FillWidth(negative, width, flags)
  {
    len', w := len, width;
    if !flags.left {
      if width > 0 && flags.zeroPad && (negative || flags.plus || flags.space) {
        w := width - 1;
      }
      len' := Fill(buf, len', prec);
      if flags.zeroPad {
        len' := Fill(buf, len', w);
      }
    }
  }

  method AddSign(buf: array<char>, len: nat, negative: bool, flags: Flags) returns (len': nat)
    requires len <= buf.Length == SCRATCH
    modifies buf
    ensures len' <= SCRATCH && buf[..len'] == SignedForm(old(buf[..len]), negative, flags)
  {
    len' := len;
    if negative {
      len' := Append(buf, len', '-');
    } else if flags.plus {
      len' := Append(buf, len', '+');
    } else if flags.space {
      len' := Append(buf, len', ' ');
    }
  }

  /** `_ntoa_long` and `_ntoa_long_long`. */
  method Ntoa(buffer: array?<char>, idx: nat, limit: nat, value: nat, negative: bool, base: nat, prec: nat, width: nat,
              flags: Flags, ghost b0: seq<char>, ghost text: string)
    returns (idx': nat)
    requires Shows(buffer, limit, b0, text, idx) && IsBase(base) && width < UINT
    modifies buffer
    ensures Shows(buffer, limit, b0, text + NumberText(value, negative, base, prec, width, flags), idx')
  {
    var buf := new char[SCRATCH];
    var flags' := if value == 0 then flags.(hash := false) else flags;
    var len := NumberDigits(buf, value, base, flags');
    idx' := NtoaFormat(buffer, idx, limit, buf, len, value, negative, base, prec, width, flags', b0, text);
    if value == 0 {
      NoPrefixOfZero(value, negative, base, prec, width, flags);
    }
  }

  method NumberDigits(buf: array<char>, value: nat, base: nat, flags: Flags) returns (len: nat)
    requires buf.Length == SCRATCH && IsBase(base)
    modifies buf
    ensures len <= SCRATCH && buf[..len] == DigitsOf(value, base, flags)
  {
    len := 0;
    if !flags.precision || value != 0 {
      len := Digits(buf, value, base, flags.upper);
    }
  }

  /** The digits, the last one first, as many as the scratch buffer holds. */
  method Digits(buf: array<char>, value: nat, base: nat, upper: bool) returns (len: nat)
    requires buf.Length == SCRATCH && IsBase(base)
    modifies buf
    ensures len <= SCRATCH && buf[..len] == RevDigits(value, base, upper, SCRATCH)
  {
    len := 0;
    var v := value;
    var more := true;
    while more
      invariant len <= SCRATCH && (more ==> len < SCRATCH)
      invariant RevDigits(value, base, upper, SCRATCH) == buf[..len] + MoreDigits(more, v, base, upper, len)
      decreases SCRATCH - len, more
    {
      ghost var before, v0 := buf[..len], v;
      len := PutDigit(buf, len, Remainder(v, base), upper);
      v := Quotient(v, base);
      more := v != 0 && len < SCRATCH;
      OneDigit(v0, base, upper, len - 1);
      Regroup(before, [DigitChar(Remainder(v0, base), upper)], MoreDigits(more, v, base, upper, len));
    }
  }

  ghost function MoreDigits(more: bool, v: nat, base: nat, upper: bool, len: nat): string
    requires IsBase(base) && (more ==> len < SCRATCH)
  {
    if more then RevDigits(v, base, upper, SCRATCH - len) else ""
  }

  lemma OneDigit(v: nat, base: nat, upper: bool, len: nat)
    requires IsBase(base) && len < SCRATCH
    ensures MoreDigits(true, v, base, upper, len)
         == [DigitChar(Remainder(v, base), upper)]
            + MoreDigits(Quotient(v, base) != 0 && len + 1 < SCRATCH, Quotient(v, base), base, upper, len + 1)
  {
  }

  method PutDigit(buf: array<char>, len: nat, digit: nat, upper: bool) returns (len': nat)
    requires len < buf.Length && digit < 36
    modifies buf
    ensures len' == len + 1 && buf[..len'] == old(buf[..len]) + [DigitChar(digit, upper)]
  {
    buf[len] := if digit < 10 then '0' + digit as char else (if upper then 'A' else 'a') + (digit - 10) as char;
    len' := len + 1;
  }

  // ----- reading the format -----

  method Atoi(s: string, p: nat) returns (i: nat, q: nat)
    requires p <= |s|
    ensures (i, q) == Number(s, p, 0) && q <= |s| && i < UINT
  {
    i, q := 0, p;
    while IsDigit(At(s, q))
      invariant p <= q <= |s| && i < UINT && Number(s, p, 0) == Number(s, q, i)
      decreases |s| - q
    {
      i := (i * 10 + (At(s, q) - '0') as nat) % UINT;
      q := q + 1;
    }
  }

  method ReadFlags(format: string, p: nat) returns (flags: Flags, q: nat)
    requires p <= |format|
    ensures (flags, q) == FlagsFrom(format, p, NO_FLAGS) && q <= |format|
  {
    flags, q := NO_FLAGS, p;
    var n := 1;
    while n != 0
      invariant q <= |format| && (n == 0 || n == 1)
      invariant FlagsFrom(format, p, NO_FLAGS) == if n == 0 then (flags, q) else FlagsFrom(format, q, flags)
      decreases |format| - q, n
    {
      flags, n := ReadFlag(At(format, q), flags);
      q := q + n;
    }
  }

  lemma ZeroPadSet(flags: Flags)
    ensures WithFlag(flags, '0') == flags.(zeroPad := true)
  {
  }

  lemma LeftSet(flags: Flags)
    ensures WithFlag(flags, '-') == flags.(left := true)
  {
  }

  lemma PlusSet(flags: Flags)
    ensures WithFlag(flags, '+') == flags.(plus := true)
  {
  }

  lemma SpaceSet(flags: Flags)
    ensures WithFlag(flags, ' ') == flags.(space := true)
  {
  }

  lemma HashSet(flags: Flags)
    ensures WithFlag(flags, '#') == flags.(hash := true)
  {
  }

  method ReadFlag(c: char, flags: Flags) returns (flags': Flags, n: nat)
    ensures if IsFlag(c) then n == 1 && flags' == WithFlag(flags, c) else n == 0 && flags' == flags
  {
    flags', n := flags, if IsFlag(c) then 1 else 0;
    if c == '0' {
      ZeroPadSet(flags);
      flags' := flags.(zeroPad := true);
    } else if c == '-' {
      LeftSet(flags);
      flags' := flags.(left := true);
    } else if c == '+' {
      PlusSet(flags);
      flags' := flags.(plus := true);
    } else if c == ' ' {
      SpaceSet(flags);
      flags' := flags.(space := true);
    } else if c == '#' {
      HashSet(flags);
      flags' := flags.(hash := true);
    }
  }

  /** Flags, width, precision and length, in turn. */
  method ReadField(format: string, args: seq<Arg>, p: nat, a: nat) returns (f: Field)
    requires p <= |format| && FieldFrom(format, args, p, a).Some?
    ensures Some(f) == FieldFrom(format, args, p, a) && p <= f.p <= |format|
    ensures f.width < UINT && f.precision < UINT && (!f.flags.precision ==> f.precision == 0)
  {
    var flags, q := ReadFlags(format, p);
    f := ReadWidth(format, args, Field(flags, 0, 0, q, a));
    f := ReadPrecision(format, args, f);
    f := ReadLength(format, f);
  }

  method ReadWidth(format: string, args: seq<Arg>, start: Field) returns (f: Field)
    requires start.p <= |format| && start.width == 0 && WidthFrom(format, args, start).Some?
    ensures Some(f) == WidthFrom(format, args, start) && f.width < UINT && f.p <= |format|
    ensures f.precision == start.precision && f.flags.precision == start.flags.precision
  {
    f := start;
    if IsDigit(At(format, f.p)) {
      var width, p := Atoi(format, f.p);
      f := f.(width := width, p := p);
    } else if At(format, f.p) == '*' {
      var w := Signed(args[f.a].bits, UINT / 2);
      if w < 0 {
        f := f.(flags := f.flags.(left := true), width := -w);
      } else {
        f := f.(width := w);
      }
      f := f.(p := f.p + 1, a := f.a + 1);
    }
  }

  method ReadPrecision(format: string, args: seq<Arg>, start: Field) returns (f: Field)
    requires start.precision == 0 && !start.flags.precision && start.p <= |format| && PrecisionFrom(format, args, start).Some?
    ensures Some(f) == PrecisionFrom(format, args, start) && f.width == start.width && f.p <= |format|
    ensures f.precision < UINT && (!f.flags.precision ==> f.precision == 0)
  {
    f := start;
    if At(format, f.p) == '.' {
      f := f.(flags := f.flags.(precision := true), p := f.p + 1);
      if IsDigit(At(format, f.p)) {
        var precision, p := Atoi(format, f.p);
        f := f.(precision := precision, p := p);
      } else if At(format, f.p) == '*' {
        var w := Signed(args[f.a].bits, UINT / 2);
        f := f.(precision := if w > 0 then w else 0, p := f.p + 1, a := f.a + 1);
      }
    }
  }

  method ReadLength(format: string, start: Field) returns (f: Field)
    requires start.p <= |format|
    ensures f == LengthFrom(format, start) && f.p <= |format|
    ensures f.width == start.width && f.precision == start.precision && f.flags.precision == start.flags.precision
  {
    f := start;
    match At(format, f.p)
    case 'l' =>
      f := f.(flags := f.flags.(long := true), p := f.p + 1);
      if At(format, f.p) == 'l' {
        f := f.(flags := f.flags.(longLong := true), p := f.p + 1);
      }
    case 'h' =>
      f := f.(flags := f.flags.(short := true), p := f.p + 1);
      if At(format, f.p) == 'h' {
        f := f.(flags := f.flags.(char_ := true), p := f.p + 1);
      }
    case 't' => f := f.(flags := f.flags.(long := true), p := f.p + 1);
    case 'j' => f := f.(flags := f.flags.(longLong := true), p := f.p + 1);
    case 'z' => f := f.(flags := f.flags.(long := true), p := f.p + 1);
    case _ =>
  }

  // ----- the conversions -----

  method ConvertInteger(c: char, f: Field, args: seq<Arg>, buffer: array?<char>, idx: nat, limit: nat,
                        ghost b0: seq<char>, ghost text: string)
    returns (idx': nat)
    requires Shows(buffer, limit, b0, text, idx) && IsInteger(c) && IntegerText(c, f, args).Some? && f.width < UINT
    modifies buffer
    ensures Shows(buffer, limit, b0, text + IntegerText(c, f, args).value, idx')
  {
    var base, flags := IntegerSetup(c, f.flags);
    if c == 'i' || c == 'd' {
      idx' := ConvertSigned(c, f, args, base, flags, buffer, idx, limit, b0, text);
    } else {
      idx' := ConvertUnsigned(c, f, args, base, flags, buffer, idx, limit, b0, text);
    }
  }

  method IntegerSetup(c: char, flags: Flags) returns (base: nat, flags': Flags)
    requires IsInteger(c)
    ensures base == BaseOf(c) && flags' == IntegerFlags(c, flags)
  {
    var hash, upper, plus, space, zeroPad := flags.hash, flags.upper, flags.plus, flags.space, flags.zeroPad;
    base := 10;
    if c == 'x' || c == 'X' {
      base := 16;
    } else if c == 'o' {
      base := 8;
    } else if c == 'b' {
      base := 2;
    } else {
      hash := false;
    }
    if c == 'X' {
      upper := true;
    }
    if c != 'i' && c != 'd' {
      plus, space := false, false;
    }
    if flags.precision {
      zeroPad := false;
    }
    flags' := flags.(hash := hash, upper := upper, plus := plus, space := space, zeroPad := zeroPad);
  }

  method ConvertSigned(c: char, f: Field, args: seq<Arg>, base: nat, flags: Flags, buffer: array?<char>, idx: nat,
                       limit: nat, ghost b0: seq<char>, ghost text: string)
    returns (idx': nat)
    requires Shows(buffer, limit, b0, text, idx) && (c == 'i' || c == 'd') && f.width < UINT
    requires base == BaseOf(c) && flags == IntegerFlags(c, f.flags) && SignedValue(args, f.a, f.flags).Some?
    modifies buffer
    ensures Shows(buffer, limit, b0, text + IntegerText(c, f, args).value, idx')
  {
    var value := SignedArgument(args, f.a, f.flags);
    var magnitude := if value > 0 then value else 0 - value;
    idx' := Ntoa(buffer, idx, limit, magnitude, value < 0, base, f.precision, f.width, flags, b0, text);
  }

  method ConvertUnsigned(c: char, f: Field, args: seq<Arg>, base: nat, flags: Flags, buffer: array?<char>, idx: nat,
                         limit: nat, ghost b0: seq<char>, ghost text: string)
    returns (idx': nat)
    requires Shows(buffer, limit, b0, text, idx) && c != 'i' && c != 'd' && f.width < UINT
    requires base == BaseOf(c) && flags == IntegerFlags(c, f.flags) && UnsignedValue(args, f.a, f.flags).Some?
    modifies buffer
    ensures Shows(buffer, limit, b0, text + IntegerText(c, f, args).value, idx')
  {
    var value := UnsignedArgument(args, f.a, f.flags);
    idx' := Ntoa(buffer, idx, limit, value, false, base, f.precision, f.width, flags, b0, text);
  }

  method SignedArgument(args: seq<Arg>, a: nat, flags: Flags) returns (value: int)
    requires SignedValue(args, a, flags).Some?
    ensures Some(value) == SignedValue(args, a, flags)
  {
    if flags.longLong {
      value := Signed(args[a].bits, UINT * (UINT / 2));
    } else if flags.long {
      value := Signed(args[a].bits, UINT / 2);
    } else {
      value := if flags.char_ then args[a].bits % 0x100
               else if flags.short then Signed(args[a].bits % 0x1_0000, 0x8000)
               else Signed(args[a].bits, UINT / 2);
    }
  }

  method UnsignedArgument(args: seq<Arg>, a: nat, flags: Flags) returns (value: nat)
    requires UnsignedValue(args, a, flags).Some?
    ensures Some(value) == UnsignedValue(args, a, flags)
  {
    if flags.longLong || flags.long {
      value := args[a].bits;
    } else {
      value := if flags.char_ then args[a].bits % 0x100 else if flags.short then args[a].bits % 0x1_0000 else args[a].bits;
    }
  }

  method ConvertChar(f: Field, args: seq<Arg>, buffer: array?<char>, idx: nat, limit: nat,
                     ghost b0: seq<char>, ghost text: string)
    returns (idx': nat)
    requires Shows(buffer, limit, b0, text, idx) && CharText(f, args).Some?
    modifies buffer
    ensures Shows(buffer, limit, b0, text + CharText(f, args).value, idx')
  {
    var c := (args[f.a].bits % 0x100) as char;
    assert [c][..1] == [c];
    idx' := OutBetween([c], 1, 1, f.width, f.flags.left, buffer, idx, limit, b0, text);
  }

  method ConvertString(f: Field, args: seq<Arg>, buffer: array?<char>, idx: nat, limit: nat,
                       ghost b0: seq<char>, ghost text: string)
    returns (idx': nat)
    requires Shows(buffer, limit, b0, text, idx) && StringText(f, args).Some?
    requires f.precision < UINT && (!f.flags.precision ==> f.precision == 0)
    modifies buffer
    ensures Shows(buffer, limit, b0, text + StringText(f, args).value, idx')
  {
    var s := args[f.a].text;
    var n, l := StringLength(s, f);
    idx' := OutBetween(s, n, l, f.width, f.flags.left, buffer, idx, limit, b0, text);
  }

  /** How many characters of s are printed, and the length that the width is compared with. */
  method StringLength(s: string, f: Field) returns (n: nat, l: nat)
    requires IsCString(s) && f.precision < UINT && (!f.flags.precision ==> f.precision == 0)
    ensures n <= |s| && s[..n] == StringShown(s, f) && l == Min(|StringShown(s, f)|, UINT - 1)
  {
    l := Strnlen(s, if f.precision != 0 then f.precision else UINT - 1);
    if f.flags.precision {
      l := if l < f.precision then l else f.precision;
    }
    n := if f.flags.precision then Min(|s|, f.precision) else |s|;
  }

  method Strnlen(s: string, max: nat) returns (n: nat)
    requires IsCString(s)
    ensures n == Min(|s|, max)
  {
    n := 0;
    var left := max;
    while At(s, n) != '\0' && left > 0
      invariant n <= |s| && left == max - n
      decreases left
    {
      n := n + 1;
      left := left - 1;
    }
  }

  /** The first n characters of s between spaces, where `l` is the length that the width is compared with. */
  method OutBetween(s: string, n: nat, l: nat, width: nat, left: bool, buffer: array?<char>, idx: nat, limit: nat,
                    ghost b0: seq<char>, ghost text: string)
    returns (idx': nat)
    requires Shows(buffer, limit, b0, text, idx) && n <= |s|
    modifies buffer
    ensures Shows(buffer, limit, b0, text + Padded(s[..n], l, width, left), idx')
  {
    idx' := idx;
    ghost var spaces := if left then "" else Repeat(' ', width - l);
    assert text + "" == text;
    if !left {
      idx' := OutRepeated(' ', width - l, buffer, idx', limit, b0, text);
    }
    idx' := OutFirst(s, n, buffer, idx', limit, b0, text + spaces);
    assert text + spaces + s[..n] == text + (spaces + s[..n]);
    if left {
      idx' := OutRepeated(' ', width - l, buffer, idx', limit, b0, text + s[..n]);
      assert text + s[..n] + Repeat(' ', width - l) == text + (s[..n] + Repeat(' ', width - l));
    }
  }

  method OutFirst(s: string, n: nat, buffer: array?<char>, idx: nat, limit: nat, ghost b0: seq<char>, ghost text: string)
    returns (idx': nat)
    requires Shows(buffer, limit, b0, text, idx) && n <= |s|
    modifies buffer
    ensures Shows(buffer, limit, b0, text + s[..n], idx')
  {
    idx' := idx;
    var i := 0;
    assert text + s[..0] == text;
    while i < n
      invariant i <= n && Shows(buffer, limit, b0, text + s[..i], idx')
    {
      idx' := Out(s[i], buffer, idx', limit, b0, text + s[..i]);
      i := i + 1;
      assert text + s[..i] == text + s[..i - 1] + [s[i - 1]];
    }
  }

  method ConvertArgument(c: char, f: Field, args: seq<Arg>, buffer: array?<char>, idx: nat, limit: nat,
                         ghost b0: seq<char>, ghost text: string)
    returns (idx': nat)
    requires f.width < UINT && f.precision < UINT && (!f.flags.precision ==> f.precision == 0)
    requires Shows(buffer, limit, b0, text, idx) && TakesArgument(c) && ArgumentText(c, f, args).Some?
    modifies buffer
    ensures Shows(buffer, limit, b0, text + ArgumentText(c, f, args).value, idx')
  {
    if IsInteger(c) {
      idx' := ConvertInteger(c, f, args, buffer, idx, limit, b0, text);
    } else if c == 'c' {
      idx' := ConvertChar(f, args, buffer, idx, limit, b0, text);
    } else if c == 's' {
      idx' := ConvertString(f, args, buffer, idx, limit, b0, text);
    } else {
      var flags := f.flags.(zeroPad := true, upper := true);
      idx' := Ntoa(buffer, idx, limit, args[f.a].bits, false, 16, f.precision, 8, flags, b0, text);
    }
  }

  /** One conversion, from the character after the percent sign on. */
  method ConvertField(format: string, args: seq<Arg>, p: nat, a: nat, buffer: array?<char>, idx: nat, limit: nat,
                      ghost b0: seq<char>, ghost text: string)
    returns (idx': nat, p': nat, a': nat, ghost shown: string)
    requires p <= |format| && Conversion(format, args, p, a).Some?
    requires Shows(buffer, limit, b0, text, idx)
    modifies buffer
    ensures Conversion(format, args, p, a) == Some(Stage(p', a', shown))
    ensures Shows(buffer, limit, b0, text + shown, idx')
  {
    var f := ReadField(format, args, p, a);
    idx', p', a', shown := Convert(format, f, args, buffer, idx, limit, b0, text);
  }

  lemma ConvertedIs(format: string, f: Field, args: seq<Arg>, c: char)
    requires f.p < |format| && c == format[f.p] && Converted(format, f, args).Some?
    ensures TakesArgument(c) ==>
              && ArgumentText(c, f, args).Some?
              && Converted(format, f, args) == Some(Stage(f.p + 1, f.a + 1, ArgumentText(c, f, args).value))
    ensures !TakesArgument(c) ==> Converted(format, f, args) == Some(Stage(f.p + 1, f.a, [c]))
  {
  }

  /** One conversion, from the specifier on. */
  method Convert(format: string, f: Field, args: seq<Arg>, buffer: array?<char>, idx: nat, limit: nat,
                 ghost b0: seq<char>, ghost text: string)
    returns (idx': nat, p': nat, a': nat, ghost shown: string)
    requires f.width < UINT && f.precision < UINT && (!f.flags.precision ==> f.precision == 0)
    requires f.p < |format| && Shows(buffer, limit, b0, text, idx) && Converted(format, f, args).Some?
    modifies buffer
    ensures Converted(format, f, args) == Some(Stage(p', a', shown)) && Shows(buffer, limit, b0, text + shown, idx')
  {
    var c := format[f.p];
    p' := f.p + 1;
    ConvertedIs(format, f, args, c);
    if TakesArgument(c) {
      idx' := ConvertArgument(c, f, args, buffer, idx, limit, b0, text);
      a', shown := f.a + 1, ArgumentText(c, f, args).value;
    } else {
      idx' := Out(c, buffer, idx, limit, b0, text);
      a', shown := f.a, [c];
    }
  }

  /** `_vsnprintf` with the buffer output: whatever the buffer, the text is the same and so is the value returned. */
  method Vsnprintf(buffer: array?<char>, limit: nat, format: string, args: seq<Arg>) returns (ret: int)
    requires limit < UINT && (buffer != null ==> limit <= buffer.Length)
    requires IsCString(format) && Render(format, args, 0, 0, "").Some?
    modifies buffer
    ensures ret == Returned(Render(format, args, 0, 0, "").value)
    ensures buffer != null ==> buffer[..] == Final(old(buffer[..]), limit, Render(format, args, 0, 0, "").value)
  {
    ghost var b0: seq<char> := if buffer != null then buffer[..] else Repeat(' ', limit);
    ghost var text, r := "", Render(format, args, 0, 0, "");
    var idx: nat, p: nat, a: nat := 0, 0, 0;
    while p < |format|
      invariant p <= |format| && Render(format, args, p, a, text) == r
      invariant Shows(buffer, limit, b0, text, idx)
      decreases |format| - p
    {
      if format[p] != '%' {
        idx := Out(format[p], buffer, idx, limit, b0, text);
        text := text + [format[p]];
        p := p + 1;
      } else {
        ghost var shown;
        idx, p, a, shown := ConvertField(format, args, p + 1, a, buffer, idx, limit, b0, text);
        text := text + shown;
      }
    }
    Terminate(buffer, idx, limit, b0, text);
    ret := Signed(idx, UINT / 2);
  }

  /** The NUL, in the last place if the text has reached the limit. */
  method Terminate(buffer: array?<char>, idx: nat, limit: nat, ghost b0: seq<char>, ghost text: string)
    requires Shows(buffer, limit, b0, text, idx)
    modifies buffer
    ensures buffer != null ==> buffer[..] == Final(b0, limit, text)
  {
    var last := if idx < limit then idx else (limit - 1) % UINT;
    if buffer != null {
      if last < limit {
        buffer[last] := '\0';
      }
    }
  }

  /**
   * `snprintf_`: for a text whose length is an `int`, that length is returned and the buffer gets as much of the text as
   * fits, then a NUL, and no more; the length does not depend on the buffer.
   */
  method Snprintf(buffer: array?<char>, count: nat, format: string, args: seq<Arg>) returns (ret: int)
    requires count < UINT && (buffer != null ==> count <= buffer.Length)
    requires IsCString(format) && Render(format, args, 0, 0, "").Some?
    modifies buffer
    ensures var text := Render(format, args, 0, 0, "").value;
            && ret == Returned(text)
            && (ret == |text| <==> |text| < 0x8000_0000)
            && (buffer != null && |text| < 0x8000_0000 ==>
                 var m := Min(|text|, count - 1);
                 buffer[..] == if count == 0 then old(buffer[..]) else text[..m] + ['\0'] + old(buffer[m + 1..]))
  {
    ghost var text := Render(format, args, 0, 0, "").value;
    ret := Vsnprintf(buffer, count, format, args);
    if buffer != null {
      TruncatesRightly(old(buffer[..]), count, text);
    }
  }
}
