/** The written form of a conversion, and that the interpreter reads it as what it means. */
module PrintfGrammar {
  import opened PrintfText
  import opened PrintfLaws
  import opened Words

  predicate AllFlags(s: string) { forall i :: 0 <= i < |s| ==> IsFlag(s[i]) }

  /** The parts of a conversion between the percent sign and the specifier, as written; a width or precision may be a star. */
  datatype Spec = Spec(flags: string, width: string, precision: Option<string>, length: string)
  {
    /** A width does not begin with a zero, which would be a flag. */
    predicate WellFormed() {
      && AllFlags(flags) && (width == "*" || (AllDigits(width) && (width != "" ==> width[0] != '0')))
      && (precision.Some? ==> precision.value == "*" || AllDigits(precision.value))
      && IsLength(length)
    }

    function Dotted(): string {
      match precision
      case None => ""
      case Some(digits) => "." + digits
    }

    function Written(): string { flags + (width + (Dotted() + length)) }

    /** How many arguments the width, and the width and the precision, take. */
    function WidthStars(): nat { if width == "*" then 1 else 0 }

    function Stars(): nat { WidthStars() + if precision == Some("*") then 1 else 0 }

    /** The stars find words among the arguments from a on. */
    predicate Supplied(args: seq<Arg>, a: nat) {
      (width == "*" ==> IsInt(args, a)) && (precision == Some("*") ==> IsInt(args, a + WidthStars()))
    }

    /** A width from an argument that is negative stands for the flag '-' and the width without its sign. */
    predicate Left(args: seq<Arg>, a: nat)
      requires Supplied(args, a)
    {
      Has(flags, '-') || (width == "*" && args[a].bits >= UINT / 2)
    }

    /** The flags in any order and number, the presence of a precision, and the length. */
    function Meaning(args: seq<Arg>, a: nat): Flags
      requires WellFormed() && Supplied(args, a)
    {
      WithLength(WithFlags(NO_FLAGS, flags).(left := Left(args, a), precision := precision.Some?), length)
    }

    function Width(args: seq<Arg>, a: nat): nat
      requires WellFormed() && Supplied(args, a)
    {
      if width != "*" then Decimal(width, 0)
      else if args[a].bits < UINT / 2 then args[a].bits else UINT - args[a].bits
    }

    /** A negative precision counts as zero. */
    function Precision(args: seq<Arg>, a: nat): nat
      requires WellFormed() && Supplied(args, a)
    {
      match precision
      case None => 0
      case Some(digits) =>
        if digits != "*" then Decimal(digits, 0)
        else if args[a + WidthStars()].bits < UINT / 2 then args[a + WidthStars()].bits else 0
    }
  }

  /** What a length adds to the flags. */
  function WithLength(f: Flags, length: string): Flags {
    f.(long := length == "l" || length == "ll" || length == "t" || length == "z", longLong := length == "ll" || length == "j",
       short := length == "h" || length == "hh", char_ := length == "hh")
  }

  predicate IsLength(s: string) {
    s == "" || s == "l" || s == "ll" || s == "h" || s == "hh" || s == "j" || s == "t" || s == "z"
  }

  predicate FlagOf(flags: Flags, c: char) {
    if c == '0' then flags.zeroPad
    else if c == '-' then flags.left
    else if c == '+' then flags.plus
    else if c == ' ' then flags.space
    else c == '#' && flags.hash
  }

  function WithFlags(flags: Flags, s: string): Flags
    decreases |s|
  {
    if s == "" then flags else WithFlags(WithFlag(flags, s[0]), s[1..])
  }

  predicate Has(s: string, c: char) { s != "" && (s[0] == c || Has(s[1..], c)) }

  /** The order and the number of the flags do not matter. */
  lemma {:induction false} FlagsByPresence(flags: Flags, s: string, c: char)
    requires IsFlag(c)
    ensures FlagOf(WithFlags(flags, s), c) == (FlagOf(flags, c) || Has(s, c))
    decreases |s|
  {
    if s != "" {
      FlagsByPresence(WithFlag(flags, s[0]), s[1..], c);
    }
  }

  /** The flag characters say nothing of lengths. */
  lemma {:induction false} NoLengths(flags: Flags, s: string)
    requires !flags.char_ && !flags.short && !flags.long && !flags.longLong && !flags.upper
    ensures var f := WithFlags(flags, s); !f.char_ && !f.short && !f.long && !f.longLong && !f.upper
    decreases |s|
  {
    if s != "" {
      NoLengths(WithFlag(flags, s[0]), s[1..]);
    }
  }

  predicate IsSpecifier(c: char) {
    !IsFlag(c) && !IsDigit(c) && c != '*' && c != '.' && c != 'l' && c != 'h' && c != 't' && c != 'j' && c != 'z'
  }

  /** t stands at p. */
  predicate Stands(text: string, p: nat, t: string) {
    p + |t| <= |text| && text[p..p + |t|] == t
  }

  lemma FirstStands(text: string, p: nat, t: string)
    requires Stands(text, p, t) && t != ""
    ensures At(text, p) == t[0] && Stands(text, p + 1, t[1..])
  {
    assert text[p] == text[p..p + |t|][0];
  }

  lemma {:induction false} FlagsRead(text: string, p: nat, s: string, flags: Flags)
    requires Stands(text, p, s) && AllFlags(s) && !IsFlag(At(text, p + |s|))
    ensures FlagsFrom(text, p, flags) == (WithFlags(flags, s), p + |s|)
    decreases |s|
  {
    if s != "" {
      FirstStands(text, p, s);
      FlagsRead(text, p + 1, s[1..], WithFlag(flags, s[0]));
    }
  }

  /** Reading the width takes the field f to g. */
  predicate WidthIs(text: string, args: seq<Arg>, f: Field, g: Field) { WidthFrom(text, args, f) == Some(g) }

  lemma WidthRead(text: string, args: seq<Arg>, f: Field, digits: string, width: nat, p: nat)
    requires Stands(text, f.p, digits) && AllDigits(digits) && digits != ""
    requires width == Decimal(digits, 0) && p == f.p + |digits| && !IsDigit(At(text, p)) && At(text, p) != '*'
    ensures WidthIs(text, args, f, f.(width := width, p := p)) == true
  {
    FirstStands(text, f.p, digits);
    NumberReads(text, f.p, digits, 0);
    DigitsAreWidth(text, args, f, width, p);
  }

  lemma NoWidth(text: string, args: seq<Arg>, f: Field)
    requires !IsDigit(At(text, f.p)) && At(text, f.p) != '*' && f.width == 0
    ensures WidthIs(text, args, f, f.(width := 0, p := f.p)) == true
  {
  }

  lemma DigitsAreWidth(text: string, args: seq<Arg>, f: Field, width: nat, p: nat)
    requires IsDigit(At(text, f.p)) && Number(text, f.p, 0) == (width, p)
    ensures WidthIs(text, args, f, f.(width := width, p := p)) == true
  {
  }

  lemma StarIsWidth(text: string, args: seq<Arg>, f: Field, left: bool, width: nat)
    requires At(text, f.p) == '*' && IsInt(args, f.a) && left == (f.flags.left || args[f.a].bits >= UINT / 2)
    requires width == if args[f.a].bits < UINT / 2 then args[f.a].bits else UINT - args[f.a].bits
    ensures WidthIs(text, args, f, f.(flags := f.flags.(left := left), width := width, p := f.p + 1, a := f.a + 1)) == true
  {
  }

  /** Reading the precision takes the field f to g. */
  predicate PrecisionIs(text: string, args: seq<Arg>, f: Field, g: Field) { PrecisionFrom(text, args, f) == Some(g) }

  lemma PrecisionRead(text: string, args: seq<Arg>, f: Field, digits: string, dotted: string, precision: nat, p: nat)
    requires dotted == "." + digits && Stands(text, f.p, dotted) && AllDigits(digits) && f.precision == 0
    requires precision == Decimal(digits, 0) && p == f.p + |dotted| && !IsDigit(At(text, p)) && At(text, p) != '*'
    ensures PrecisionIs(text, args, f, f.(flags := f.flags.(precision := true), precision := precision, p := p)) == true
  {
    FirstStands(text, f.p, dotted);
    assert dotted[1..] == digits;
    if digits != "" {
      FirstStands(text, f.p + 1, digits);
      NumberReads(text, f.p + 1, digits, 0);
      DigitsArePrecision(text, args, f, precision, p);
    } else {
      PointOnly(text, args, f);
    }
  }

  lemma DigitsArePrecision(text: string, args: seq<Arg>, f: Field, precision: nat, p: nat)
    requires At(text, f.p) == '.' && IsDigit(At(text, f.p + 1)) && Number(text, f.p + 1, 0) == (precision, p)
    ensures PrecisionIs(text, args, f, f.(flags := f.flags.(precision := true), precision := precision, p := p)) == true
  {
  }

  lemma PointOnly(text: string, args: seq<Arg>, f: Field)
    requires At(text, f.p) == '.' && !IsDigit(At(text, f.p + 1)) && At(text, f.p + 1) != '*' && f.precision == 0
    ensures PrecisionIs(text, args, f, f.(flags := f.flags.(precision := true), precision := 0, p := f.p + 1)) == true
  {
  }

  lemma NoPrecision(text: string, args: seq<Arg>, f: Field)
    requires At(text, f.p) != '.'
    ensures PrecisionIs(text, args, f, f) == true
  {
  }

  lemma StarIsPrecision(text: string, args: seq<Arg>, f: Field, precision: nat)
    requires Stands(text, f.p, ".*") && IsInt(args, f.a)
    requires precision == if args[f.a].bits < UINT / 2 then args[f.a].bits else 0
    ensures PrecisionIs(text, args, f, f.(flags := f.flags.(precision := true), precision := precision, p := f.p + 2, a := f.a + 1))
            == true
  {
    FirstStands(text, f.p, ".*");
    FirstStands(text, f.p + 1, "*");
  }

  /** Reading the length takes the field f to g. */
  predicate LengthIs(text: string, f: Field, g: Field) { LengthFrom(text, f) == g }

  predicate NoLength(f: Flags) { !f.char_ && !f.short && !f.long && !f.longLong }

  lemma LengthRead(text: string, f: Field, length: string)
    requires IsLength(length) && Stands(text, f.p, length) && IsSpecifier(At(text, f.p + |length|)) && NoLength(f.flags)
    ensures LengthIs(text, f, f.(flags := WithLength(f.flags, length), p := f.p + |length|)) == true
  {
    if |length| == 2 {
      FirstStands(text, f.p, length);
      FirstStands(text, f.p + 1, length[1..]);
      LongLength(text, f, length);
    } else if |length| == 1 {
      FirstStands(text, f.p, length);
      ShortLength(text, f, length);
    } else {
      assert length == "";
    }
  }

  lemma LongLength(text: string, f: Field, length: string)
    requires (length == "ll" || length == "hh") && At(text, f.p) == length[0] && At(text, f.p + 1) == length[1] && NoLength(f.flags)
    ensures LengthIs(text, f, f.(flags := WithLength(f.flags, length), p := f.p + 2)) == true
  {
  }

  lemma ShortLength(text: string, f: Field, length: string)
    requires (length == "l" || length == "h" || length == "j" || length == "t" || length == "z") && At(text, f.p) == length[0]
    requires IsSpecifier(At(text, f.p + 1)) && NoLength(f.flags)
    ensures LengthIs(text, f, f.(flags := WithLength(f.flags, length), p := f.p + 1)) == true
  {
  }

  /** What may follow the flags, the width and the precision. */
  lemma NoFlagHere(spec: Spec, c: char, l: string, d: string, w: string)
    requires spec.WellFormed() && IsSpecifier(c) && l == spec.length + [c] && d == spec.Dotted() + l && w == spec.width + d
    ensures !IsFlag(w[0]) && !IsDigit(d[0]) && d[0] != '*' && !IsDigit(l[0]) && l[0] != '*' && l[0] != '.'
  {
    assert l[0] == if spec.length == "" then c else spec.length[0];
    assert d[0] == if spec.precision.None? then l[0] else '.';
    assert w[0] == if spec.width == "" then d[0] else spec.width[0];
  }

  /** q, r and s are where width, precision and length stand. */
  predicate Places(p: nat, q: nat, r: nat, s: nat, spec: Spec) {
    q == p + |spec.flags| && r == q + |spec.width| && s == r + |spec.Dotted()|
  }

  /** Each part stands where the one before it ends, and what follows it does not belong to it. */
  ghost predicate Laid(text: string, p: nat, q: nat, r: nat, s: nat, spec: Spec)
    requires spec.WellFormed()
  {
    && Places(p, q, r, s, spec) && p <= |text|
    && Stands(text, p, spec.flags) && !IsFlag(At(text, q))
    && Stands(text, q, spec.width) && !IsDigit(At(text, r)) && At(text, r) != '*'
    && Stands(text, r, spec.Dotted()) && !IsDigit(At(text, s)) && At(text, s) != '*' && At(text, s) != '.'
    && Stands(text, s, spec.length) && IsSpecifier(At(text, s + |spec.length|))
  }

  lemma Prefixes(text: string, p: nat, t: string, u: string)
    requires Stands(text, p, t + u)
    ensures Stands(text, p, t) && Stands(text, p + |t|, u)
  {
    assert text[p..p + |t|] == (t + u)[..|t|];
    assert text[p + |t|..p + |t| + |u|] == (t + u)[|t|..];
  }

  lemma PartsLaid(text: string, p: nat, q: nat, r: nat, s: nat, spec: Spec, c: char)
    requires spec.WellFormed() && IsSpecifier(c) && Places(p, q, r, s, spec)
    requires Stands(text, p, spec.flags + (spec.width + (spec.Dotted() + (spec.length + [c]))))
    ensures Laid(text, p, q, r, s, spec) == true
  {
    var l := spec.length + [c];
    var d := spec.Dotted() + l;
    var w := spec.width + d;
    PartsStand(text, p, q, r, s, spec, c, l, d, w);
    NoFlagHere(spec, c, l, d, w);
    Firsts(text, q, w, r, d, s, l, s + |spec.length|, c);
  }

  /** The parts, and what is left from each of them on. */
  lemma PartsStand(text: string, p: nat, q: nat, r: nat, s: nat, spec: Spec, c: char, l: string, d: string, w: string)
    requires Places(p, q, r, s, spec) && l == spec.length + [c] && d == spec.Dotted() + l && w == spec.width + d
    requires Stands(text, p, spec.flags + w)
    ensures Stands(text, p, spec.flags) && Stands(text, q, spec.width) && Stands(text, r, spec.Dotted())
    ensures Stands(text, s, spec.length) && Stands(text, s + |spec.length|, [c])
    ensures Stands(text, q, w) && Stands(text, r, d) && Stands(text, s, l)
  {
    Prefixes(text, p, spec.flags, w);
    Prefixes(text, q, spec.width, d);
    Prefixes(text, r, spec.Dotted(), l);
    Prefixes(text, s, spec.length, [c]);
  }

  lemma Firsts(text: string, q: nat, w: string, r: nat, d: string, s: nat, l: string, e: nat, c: char)
    requires Stands(text, q, w) && Stands(text, r, d) && Stands(text, s, l) && Stands(text, e, [c])
    requires w != "" && d != "" && l != ""
    ensures At(text, q) == w[0] && At(text, r) == d[0] && At(text, s) == l[0] && At(text, e) == c
  {
    FirstStands(text, q, w);
    FirstStands(text, r, d);
    FirstStands(text, s, l);
    FirstStands(text, e, [c]);
  }

  lemma Regrouped(spec: Spec, c: char)
    ensures spec.Written() + [c] == spec.flags + (spec.width + (spec.Dotted() + (spec.length + [c])))
    ensures |spec.Written()| == |spec.flags| + |spec.width| + |spec.Dotted()| + |spec.length|
  {
  }

  /** What a conversion means for the arguments from a on; the specifier stands at e. */
  function FieldOf(spec: Spec, args: seq<Arg>, a: nat, e: nat): Field
    requires spec.WellFormed() && spec.Supplied(args, a)
  {
    Field(spec.Meaning(args, a), spec.Width(args, a), spec.Precision(args, a), e, a + spec.Stars())
  }

  /** From p on, with the arguments from a on, the interpreter reads what the conversion means and stops at e. */
  predicate ReadsAs(text: string, args: seq<Arg>, p: nat, a: nat, spec: Spec, e: nat)
    requires spec.WellFormed() && spec.Supplied(args, a)
  {
    p <= |text| && FieldFrom(text, args, p, a) == Some(FieldOf(spec, args, a, e))
  }

  /** Wherever it stands in a format, a written conversion is read as what it means. */
  lemma ReadsField(text: string, p: nat, spec: Spec, c: char, args: seq<Arg>, a: nat, e: nat)
    requires spec.WellFormed() && IsSpecifier(c) && Stands(text, p, spec.Written() + [c]) && e == p + |spec.Written()|
    requires spec.Supplied(args, a)
    ensures ReadsAs(text, args, p, a, spec, e) == true
  {
    var q := p + |spec.flags|;
    var r := q + |spec.width|;
    var s := r + |spec.Dotted()|;
    Regrouped(spec, c);
    PartsLaid(text, p, q, r, s, spec, c);
    ReadsLaid(text, p, q, r, s, e, spec, args, a);
  }

  /** The field once the width has been read, and once the precision has. */
  function WithWidth(spec: Spec, args: seq<Arg>, a: nat, r: nat): Field
    requires spec.WellFormed() && spec.Supplied(args, a)
  {
    Field(WithFlags(NO_FLAGS, spec.flags).(left := spec.Left(args, a)), spec.Width(args, a), 0, r, a + spec.WidthStars())
  }

  function WithPrecision(spec: Spec, args: seq<Arg>, a: nat, s: nat): Field
    requires spec.WellFormed() && spec.Supplied(args, a)
  {
    Field(WithFlags(NO_FLAGS, spec.flags).(left := spec.Left(args, a), precision := spec.precision.Some?),
          spec.Width(args, a), spec.Precision(args, a), s, a + spec.Stars())
  }

  lemma NoFlagsSet(flags: Flags)
    requires flags == NO_FLAGS
    ensures !flags.left && !flags.precision
  {
  }

  lemma {:induction false} FlagsKeep(flags: Flags, s: string)
    ensures WithFlags(flags, s).precision == flags.precision && WithFlags(flags, s).left == (flags.left || Has(s, '-'))
    decreases |s|
  {
    if s != "" {
      FlagsKeep(WithFlag(flags, s[0]), s[1..]);
    }
  }

  lemma WidthLaid(text: string, q: nat, r: nat, spec: Spec, args: seq<Arg>, a: nat)
    requires spec.WellFormed() && spec.Supplied(args, a) && r == q + |spec.width|
    requires Stands(text, q, spec.width) && !IsDigit(At(text, r)) && At(text, r) != '*'
    ensures WidthIs(text, args, Field(WithFlags(NO_FLAGS, spec.flags), 0, 0, q, a), WithWidth(spec, args, a, r)) == true
  {
    var f := Field(WithFlags(NO_FLAGS, spec.flags), 0, 0, q, a);
    if spec.width == "*" {
      FirstStands(text, q, spec.width);
      StarLaid(spec, args, a, q);
      StarIsWidth(text, args, f, spec.Left(args, a), spec.Width(args, a));
    } else {
      DigitsLaid(spec, args, a, q, r);
      if spec.width == "" {
        NoWidth(text, args, f);
      } else {
        WidthRead(text, args, f, spec.width, spec.Width(args, a), r);
      }
    }
  }

  lemma StarLaid(spec: Spec, args: seq<Arg>, a: nat, q: nat)
    requires spec.WellFormed() && spec.Supplied(args, a) && spec.width == "*"
    ensures var f := Field(WithFlags(NO_FLAGS, spec.flags), 0, 0, q, a);
            && spec.Left(args, a) == (f.flags.left || args[a].bits >= UINT / 2)
            && WithWidth(spec, args, a, q + 1)
               == f.(flags := f.flags.(left := spec.Left(args, a)), width := spec.Width(args, a), p := q + 1, a := a + 1)
  {
    FlagsKeep(NO_FLAGS, spec.flags);
  }

  lemma DigitsLaid(spec: Spec, args: seq<Arg>, a: nat, q: nat, r: nat)
    requires spec.WellFormed() && spec.Supplied(args, a) && spec.width != "*"
    ensures WithWidth(spec, args, a, r)
         == Field(WithFlags(NO_FLAGS, spec.flags), 0, 0, q, a).(width := spec.Width(args, a), p := r)
    ensures spec.width == "" ==> spec.Width(args, a) == 0
  {
    FlagsKeep(NO_FLAGS, spec.flags);
    assert WithFlags(NO_FLAGS, spec.flags).left == spec.Left(args, a);
  }

  lemma PrecisionLaid(text: string, r: nat, s: nat, spec: Spec, args: seq<Arg>, a: nat)
    requires spec.WellFormed() && spec.Supplied(args, a) && s == r + |spec.Dotted()|
    requires Stands(text, r, spec.Dotted()) && !IsDigit(At(text, s)) && At(text, s) != '*' && At(text, s) != '.'
    ensures PrecisionIs(text, args, WithWidth(spec, args, a, r), WithPrecision(spec, args, a, s)) == true
  {
    var f := WithWidth(spec, args, a, r);
    FlagsKeep(NO_FLAGS, spec.flags);
    match spec.precision
    case None => NoPrecision(text, args, f);
    case Some(digits) =>
      if digits == "*" {
        assert spec.Dotted() == ".*";
        StarIsPrecision(text, args, f, spec.Precision(args, a));
      } else {
        PrecisionRead(text, args, f, digits, spec.Dotted(), spec.Precision(args, a), s);
      }
  }

  lemma ReadsLaid(text: string, p: nat, q: nat, r: nat, s: nat, e: nat, spec: Spec, args: seq<Arg>, a: nat)
    requires spec.WellFormed() && spec.Supplied(args, a) && Laid(text, p, q, r, s, spec) == true && e == s + |spec.length|
    ensures ReadsAs(text, args, p, a, spec, e) == true
  {
    FlagsRead(text, p, spec.flags, NO_FLAGS);
    WidthLaid(text, q, r, spec, args, a);
    PrecisionLaid(text, r, s, spec, args, a);
    NoLengths(NO_FLAGS, spec.flags);
    LengthRead(text, WithPrecision(spec, args, a, s), spec.length);
    FieldByParts(text, args, p, a, WithFlags(NO_FLAGS, spec.flags), q, WithWidth(spec, args, a, r),
                 WithPrecision(spec, args, a, s), FieldOf(spec, args, a, e));
  }

  lemma FieldByParts(text: string, args: seq<Arg>, p: nat, a: nat, flags: Flags, q: nat, f: Field, g: Field, h: Field)
    requires p <= |text| && FlagsFrom(text, p, NO_FLAGS) == (flags, q) && WidthIs(text, args, Field(flags, 0, 0, q, a), f) == true
    requires PrecisionIs(text, args, f, g) == true && LengthIs(text, g, h) == true
    ensures FieldFrom(text, args, p, a) == Some(h)
  {
  }
}
