// Command-line parser `args::parser`: key and pair recognition, the
// text-to-value conversions and the left-to-right argv state machine that
// fills a key -> argument table.  The `std::any` payload of each argument
// is the `Value` datatype; the `value_t` type codes are kept as 16-bit
// masks so that the switch statements of the parser can be followed
// literally.

module Args {
  import opened Wrappers

  // ---------------------------------------------------------------------
  // Type codes (value_t)
  // ---------------------------------------------------------------------

  type TypeCode = bv16

  const Unsupported: TypeCode := 0x0000
  const String: TypeCode := 0x0001
  const Boolean: TypeCode := 0x0002
  const Floating: TypeCode := 0x0004
  const Integer: TypeCode := 0x0008
  const VectorTag: TypeCode := 0x1000
  const PairTag: TypeCode := 0x2000
  const MapTag: TypeCode := 0x4000
  const WrapperMask: TypeCode := 0xf000

  predicate IsBase(c: TypeCode) {
    c == String || c == Boolean || c == Floating || c == Integer
  }

  /** The element code of a vector code `vector | base`. */
  predicate IsVectorCode(c: TypeCode) {
    c & WrapperMask == VectorTag && IsBase(c & 0x0fff)
  }

  /** The two base codes of a pair or map code `first | second << 4`,
    * read from the bits below the wrapper, as the `set_pair` and
    * `set_map` switches do. */
  function Components(c: TypeCode): (r: Option<(TypeCode, TypeCode)>)
    ensures r.Some? ==> IsBase(r.value.0) && IsBase(r.value.1)
    ensures r.Some? ==> c & 0x0fff == r.value.0 | (r.value.1 << 4)
  {
    var lo := c & 0x000f;
    var hi := (c >> 4) & 0x000f;
    if c & 0x0f00 == 0 && IsBase(lo) && IsBase(hi) then Some((lo, hi)) else None
  }

  // ---------------------------------------------------------------------
  // Values (the std::any payload)
  // ---------------------------------------------------------------------

  /** A floating value keeps its text: std::stod is not modelled. */
  datatype Scalar = Bool(b: bool) | Int(n: int) | Float(text: string) | Str(s: string)

  /** `Empty` is an any without a value; `NullOpt` is an any holding
    * std::nullopt, the payload of a default-constructed entry. */
  datatype Value =
    | Empty
    | NullOpt
    | Base(x: Scalar)
    | Vec(xs: seq<Scalar>)
    | PairOf(first: Scalar, second: Scalar)
    | MapOf(m: map<Scalar, Scalar>)

  function Kind(x: Scalar): TypeCode {
    match x
    case Bool(_) => Boolean
    case Int(_) => Integer
    case Float(_) => Floating
    case Str(_) => String
  }

  predicate IsVecOf(v: Value, c: TypeCode) {
    v.Vec? && forall e :: e in v.xs ==> Kind(e) == c
  }

  predicate IsMapOf(v: Value, c1: TypeCode, c2: TypeCode) {
    v.MapOf? && forall k :: k in v.m ==> Kind(k) == c1 && Kind(v.m[k]) == c2
  }

  /** The payload has the C++ type that the type code names. */
  predicate Typed(c: TypeCode, v: Value) {
    if IsBase(c) then v.Base? && Kind(v.x) == c
    else if IsVectorCode(c) then IsVecOf(v, c & 0x0fff)
    else if c & WrapperMask == PairTag && Components(c).Some? then
      v.PairOf? && Kind(v.first) == Components(c).value.0 && Kind(v.second) == Components(c).value.1
    else if c & WrapperMask == MapTag && Components(c).Some? then
      IsMapOf(v, Components(c).value.0, Components(c).value.1)
    else false
  }

  /** arg_t */
  datatype Arg = Arg(code: TypeCode, value: Value, help: string, declared: bool, isDefault: bool)

  type Table = map<string, Arg>

  /** What `args_[key]` yields: the entry, or a default-constructed one
    * that operator[] inserts. */
  function Lookup(t: Table, key: string): (a: Arg)
    ensures key in t ==> a == t[key]
    ensures key !in t ==> a.code == Unsupported && a.value == NullOpt && !a.declared && !a.isDefault
  {
    if key in t then t[key] else Arg(Unsupported, NullOpt, "", false, false)
  }

  /** An entry whose payload matches its type code (or is absent, or is
    * the std::nullopt of a default-constructed entry): every any_cast the
    * parser performs on it succeeds. */
  predicate Consistent(a: Arg) {
    a.value == Empty || (a.code == Unsupported && a.value == NullOpt) || Typed(a.code, a.value)
  }

  predicate TableOk(t: Table) {
    forall k :: k in t ==> Consistent(t[k])
  }

  // ---------------------------------------------------------------------
  // Key and pair recognition
  // ---------------------------------------------------------------------

  predicate IsAlpha(c: char) { 'a' <= c <= 'z' || 'A' <= c <= 'Z' }

  predicate IsDigit(c: char) { '0' <= c <= '9' }

  predicate IsAlnum(c: char) { IsAlpha(c) || IsDigit(c) }

  /** `[a-zA-Z][a-zA-Z0-9]*` */
  predicate IsKeyName(k: string) {
    |k| > 0 && IsAlpha(k[0]) && forall i :: 1 <= i < |k| ==> IsAlnum(k[i])
  }

  /** `[a-zA-Z0-9]+` */
  predicate IsWord(w: string) {
    |w| > 0 && forall i :: 0 <= i < |w| ==> IsAlnum(w[i])
  }

  /** The number of leading '-' characters. */
  function Dashes(s: string): (n: nat)
    ensures n <= |s|
    ensures forall i :: 0 <= i < n ==> s[i] == '-'
    ensures n < |s| ==> s[n] != '-'
  {
    if |s| > 0 && s[0] == '-' then 1 + Dashes(s[1..]) else 0
  }

  /** parse_key: the regular expression `-{1,2}([a-zA-Z][a-zA-Z0-9]*)`,
    * matched against the whole argument. */
  function ParseKey(s: string): (r: Option<string>)
    ensures r.Some? ==> IsKeyName(r.value) && (s == "-" + r.value || s == "--" + r.value)
  {
    var d := Dashes(s);
    if 1 <= d <= 2 && IsKeyName(s[d..]) then
      assert s == s[..d] + s[d..];
      assert d == 1 ==> s[..d] == "-";
      assert d == 2 ==> s[..d] == "--";
      Some(s[d..])
    else None
  }

  lemma ParseKeyExact(s: string, k: string)
    ensures ParseKey(s) == Some(k) <==> IsKeyName(k) && (s == "-" + k || s == "--" + k)
  {
    var d := Dashes(s);
    if ParseKey(s) == Some(k) {
      assert s == s[..d] + k;
      if d == 1 {
        assert s[..d] == "-";
      } else {
        assert s[..d] == "--";
      }
    }
    if IsKeyName(k) && s == "-" + k {
      assert k[0] != '-';
      assert s[1..] == k;
      assert Dashes(s) == 1;
    }
    if IsKeyName(k) && s == "--" + k {
      assert k[0] != '-';
      assert s[2..] == k;
      assert s[1..] == "-" + k;
      assert Dashes(s[1..]) == 1;
    }
  }

  /** Index of the first ':' in s, or |s| when there is none. */
  function ColonAt(s: string): (j: nat)
    ensures j <= |s|
    ensures forall i :: 0 <= i < j ==> s[i] != ':'
    ensures j < |s| ==> s[j] == ':'
  {
    if |s| == 0 then 0 else if s[0] == ':' then 0 else 1 + ColonAt(s[1..])
  }

  /** parse_pair: the regular expression `([a-zA-Z0-9]+):([a-zA-Z0-9]+)`. */
  function ParsePair(s: string): (r: Option<(string, string)>)
    ensures r.Some? ==> IsWord(r.value.0) && IsWord(r.value.1) && s == r.value.0 + ":" + r.value.1
  {
    var j := ColonAt(s);
    if j < |s| && IsWord(s[..j]) && IsWord(s[j + 1..]) then
      assert s == s[..j] + ":" + s[j + 1..];
      Some((s[..j], s[j + 1..]))
    else None
  }

  lemma ParsePairExact(s: string, a: string, b: string)
    ensures ParsePair(s) == Some((a, b)) <==> IsWord(a) && IsWord(b) && s == a + ":" + b
  {
    if IsWord(a) && IsWord(b) && s == a + ":" + b {
      assert forall i :: 0 <= i < |a| ==> s[i] == a[i] && IsAlnum(a[i]);
      assert s[|a|] == ':';
      assert ColonAt(s) == |a|;
      assert s[..|a|] == a;
      assert s[|a| + 1..] == b;
    }
    if ParsePair(s) == Some((a, b)) {
      var j := ColonAt(s);
      assert s == s[..j] + ":" + s[j + 1..];
    }
  }

  // ---------------------------------------------------------------------
  // Text conversions: b() and i() (std::stoi)
  // ---------------------------------------------------------------------

  /** b(s) */
  predicate B(s: string) { s == "1" || s == "true" || s == "on" }

  /** b() compares whole texts, case and spaces included: only "1", "true"
    * and "on" are true. */
  lemma BooleanTextIsExact()
    ensures B("1") && B("true") && B("on")
    ensures !B("True") && !B("ON") && !B("yes") && !B(" 1") && !B("0") && !B("false") && !B("")
  {
  }

  const IntMin: int := -0x8000_0000
  const IntMax: int := 0x7fff_ffff

  /** The characters std::isspace accepts in the C locale. */
  predicate IsSpace(c: char) {
    c == ' ' || c == '\t' || c == '\n' || c == '\U{000B}' || c == '\U{000C}' || c == '\r'
  }

  function SkipSpaces(s: string): (t: string)
    ensures |t| <= |s|
    ensures |t| > 0 ==> !IsSpace(t[0])
  {
    if |s| > 0 && IsSpace(s[0]) then SkipSpaces(s[1..]) else s
  }

  /** The longest prefix of decimal digits. */
  function DigitRun(s: string): string {
    if |s| > 0 && IsDigit(s[0]) then [s[0]] + DigitRun(s[1..]) else []
  }

  /** DigitRun is the longest prefix made of digits only. */
  lemma {:induction false} DigitRunIsLongestPrefix(s: string)
    ensures var d := DigitRun(s);
      |d| <= |s| && d == s[..|d|] && (forall i :: 0 <= i < |d| ==> IsDigit(d[i])) &&
      (|d| < |s| ==> !IsDigit(s[|d|]))
  {
    if |s| > 0 && IsDigit(s[0]) {
      DigitRunIsLongestPrefix(s[1..]);
    }
  }

  function DigitValue(c: char): nat { if IsDigit(c) then (c as int - '0' as int) else 0 }

  /** The number a string of decimal digits denotes, most significant first. */
  function DigitsValue(d: string): nat {
    if |d| == 0 then 0 else 10 * DigitsValue(d[..|d| - 1]) + DigitValue(d[|d| - 1])
  }

  /** i(s), that is std::stoi: leading white space, an optional sign and
    * the longest run of digits, which must be non-empty and fit an int.
    * None stands for the exception std::stoi throws otherwise; the text
    * after the digits is ignored. */
  function StoI(s: string): (r: Option<int>)
    ensures r.Some? ==> IntMin <= r.value <= IntMax
  {
    ReadSigned(SkipSpaces(s))
  }

  /** An optional sign and the longest run of digits, in int range. */
  function ReadSigned(t: string): (r: Option<int>)
    ensures r.Some? ==> IntMin <= r.value <= IntMax
  {
    if |t| > 0 && t[0] == '-' then ReadDigits(t[1..], true)
    else if |t| > 0 && t[0] == '+' then ReadDigits(t[1..], false)
    else ReadDigits(t, false)
  }

  function ReadDigits(u: string, negative: bool): (r: Option<int>)
    ensures r.Some? ==> IntMin <= r.value <= IntMax
  {
    InRange(DigitRun(u), negative)
  }

  /** The value of a non-empty digit string with its sign, if it fits. */
  function InRange(d: string, negative: bool): (r: Option<int>)
    ensures r.Some? ==> IntMin <= r.value <= IntMax
  {
    if |d| == 0 then None
    else
      var n: int := if negative then -(DigitsValue(d) as int) else DigitsValue(d);
      if IntMin <= n <= IntMax then Some(n) else None
  }

  function DigitChar(n: nat): char
    requires n < 10
  {
    "0123456789"[n]
  }

  /** Decimal notation of a natural number, the inverse of DigitsValue. */
  function Decimal(n: nat): (s: string)
    ensures |s| > 0
    ensures forall i :: 0 <= i < |s| ==> IsDigit(s[i])
    decreases n
  {
    if n < 10 then [DigitChar(n)] else Decimal(n / 10) + [DigitChar(n % 10)]
  }

  lemma {:induction false} DecimalValue(n: nat)
    ensures DigitsValue(Decimal(n)) == n
    decreases n
  {
    var s := Decimal(n);
    if n >= 10 {
      assert s[..|s| - 1] == Decimal(n / 10);
      DecimalValue(n / 10);
    }
  }

  lemma {:induction false} DigitRunOfDigits(s: string, rest: string)
    requires forall i :: 0 <= i < |s| ==> IsDigit(s[i])
    requires |rest| == 0 || !IsDigit(rest[0])
    ensures DigitRun(s + rest) == s
    decreases |s|
  {
    if |s| > 0 {
      assert (s + rest)[1..] == s[1..] + rest;
      DigitRunOfDigits(s[1..], rest);
    }
  }

  /** std::stoi reads back every int written in decimal, whatever text
    * that does not start with a digit follows it. */
  lemma StoIReadsDecimal(n: int, rest: string)
    requires IntMin <= n <= IntMax
    requires |rest| == 0 || !IsDigit(rest[0])
    ensures n >= 0 ==> StoI(Decimal(n) + rest) == Some(n)
    ensures n < 0 ==> StoI("-" + Decimal(-n) + rest) == Some(n)
  {
    if n >= 0 {
      DecimalValue(n);
      StoIUnsigned(Decimal(n) + rest, Decimal(n), rest);
    } else {
      DecimalValue(-n);
      StoINegative(Decimal(-n), rest);
      assert "-" + Decimal(-n) + rest == "-" + (Decimal(-n) + rest);
    }
  }

  lemma StoIUnsigned(s: string, d: string, rest: string)
    requires s == d + rest && |d| > 0
    requires forall i :: 0 <= i < |d| ==> IsDigit(d[i])
    requires |rest| == 0 || !IsDigit(rest[0])
    requires DigitsValue(d) <= IntMax
    ensures StoI(s) == Some(DigitsValue(d))
  {
    assert s[0] == d[0];
    StartsWithDigit(s);
    DigitRunOfDigits(d, rest);
    ReadDigitsOf(d, rest, false);
  }

  lemma StoINegative(d: string, rest: string)
    requires |d| > 0
    requires forall i :: 0 <= i < |d| ==> IsDigit(d[i])
    requires |rest| == 0 || !IsDigit(rest[0])
    requires IntMin <= -(DigitsValue(d) as int)
    ensures StoI("-" + (d + rest)) == Some(-(DigitsValue(d) as int))
  {
    StartsWithMinus(d + rest);
    DigitRunOfDigits(d, rest);
    ReadDigitsOf(d, rest, true);
  }

  lemma StartsWithDigit(s: string)
    requires |s| > 0 && IsDigit(s[0])
    ensures StoI(s) == ReadDigits(s, false)
  {
    assert SkipSpaces(s) == s;
  }

  lemma StartsWithMinus(u: string)
    ensures StoI("-" + u) == ReadDigits(u, true)
  {
    var s := "-" + u;
    assert SkipSpaces(s) == s;
    assert s[1..] == u;
  }

  lemma ReadDigitsOf(d: string, rest: string, negative: bool)
    requires |d| > 0 && DigitRun(d + rest) == d
    requires IntMin <= (if negative then -(DigitsValue(d) as int) else DigitsValue(d)) <= IntMax
    ensures ReadDigits(d + rest, negative) == Some(if negative then -(DigitsValue(d) as int) else DigitsValue(d))
  {
    assert ReadDigits(d + rest, negative) == InRange(d, negative);
  }

  /** One text converted to the scalar a base type code names; None is
    * the exception std::stoi throws. */
  function Convert(c: TypeCode, text: string): (r: Option<Scalar>)
    requires IsBase(c)
    ensures r.Some? ==> Kind(r.value) == c
    ensures r.None? <==> c == Integer && StoI(text).None?
    ensures c == Boolean ==> r == Some(Bool(B(text)))
    ensures c == String ==> r == Some(Str(text))
  {
    if c == Boolean then Some(Bool(B(text)))
    else if c == Integer then (match StoI(text) case None => None case Some(n) => Some(Int(n)))
    else if c == Floating then Some(Float(text))
    else Some(Str(text))
  }

  // ---------------------------------------------------------------------
  // set, set_pair, set_map on one entry.  None is an exception escaping
  // (std::stoi, or a std::any_cast to the wrong type).  std::stod is not
  // modelled: a floating value keeps its text and never fails here.
  // ---------------------------------------------------------------------

  /** The switch of set_pair once the text parsed as `first:second`. */
  function PairValue(a: Arg, first: string, second: string): (r: Option<Arg>)
    ensures r.Some? ==> r.value == a.(value := r.value.value)
    ensures Components(a.code).None? ==> r == Some(a)
    ensures Components(a.code).Some? ==>
      (r.None? <==> Convert(Components(a.code).value.0, first).None? ||
                    Convert(Components(a.code).value.1, second).None?)
  {
    match Components(a.code)
    case None => Some(a)
    case Some((c1, c2)) =>
      match (Convert(c1, first), Convert(c2, second))
      case (Some(x), Some(y)) => Some(a.(value := PairOf(x, y)))
      case _ => None
  }

  /** The two switches of set_map once the text parsed as `first:second`. */
  function MapValue(a: Arg, first: string, second: string): (r: Option<Arg>)
    ensures r.Some? ==> r.value == a.(value := r.value.value)
  {
    match Components(a.code)
    case None => Some(a)
    case Some((c1, c2)) =>
      match (Convert(c1, first), Convert(c2, second))
      case (Some(x), Some(y)) =>
        if a.value == Empty then Some(a.(value := MapOf(map[x := y])))
        else if IsMapOf(a.value, c1, c2) then Some(a.(value := MapOf(a.value.m[x := y])))
        else None
      case _ => None
  }

  /** set(key, value) applied to the entry of key. */
  function SetArg(a: Arg, text: string): (r: Option<Arg>)
    ensures r.Some? ==> r.value == a.(value := r.value.value)
  {
    if IsBase(a.code) then
      match Convert(a.code, text)
      case None => None
      case Some(x) => Some(a.(value := Base(x)))
    else if IsVectorCode(a.code) then
      match Convert(a.code & 0x0fff, text)
      case None => None
      case Some(x) =>
        if a.value == Empty then Some(a.(value := Vec([x])))
        else if IsVecOf(a.value, a.code & 0x0fff) then Some(a.(value := Vec(a.value.xs + [x])))
        else None
    else if a.code & WrapperMask == PairTag then
      match ParsePair(text)
      case None => Some(a)
      case Some((f, s)) => PairValue(a, f, s)
    else if a.code & WrapperMask == MapTag then
      match ParsePair(text)
      case None => Some(a)
      case Some((f, s)) => MapValue(a, f, s)
    else Some(a)
  }

  /** A scalar key keeps only the last value given to it. */
  lemma ScalarKeepsLast(a: Arg, text: string)
    requires IsBase(a.code)
    requires a.code != Integer || StoI(text).Some?
    ensures SetArg(a, text).Some?
    ensures SetArg(a, text).value.value == Base(Convert(a.code, text).value)
    ensures SetArg(a, text).value.code == a.code
  {
  }

  /** A vector key appends each value after the ones it already holds. */
  lemma VectorAppends(a: Arg, text: string)
    requires IsVectorCode(a.code) && Consistent(a)
    requires a.code & 0x0fff != Integer || StoI(text).Some?
    ensures a.value == Empty ==> SetArg(a, text) == Some(a.(value := Vec([Convert(a.code & 0x0fff, text).value])))
    ensures a.value != Empty ==> SetArg(a, text) == Some(a.(value := Vec(a.value.xs + [Convert(a.code & 0x0fff, text).value])))
  {
  }

  /** A pair key keeps only the last `first:second` value given to it. */
  lemma PairKeepsLast(a: Arg, text: string, f: string, s: string)
    requires a.code & WrapperMask == PairTag && Components(a.code).Some?
    requires ParsePair(text) == Some((f, s))
    requires var c := Components(a.code).value;
      Convert(c.0, f).Some? && Convert(c.1, s).Some?
    ensures var c := Components(a.code).value;
      SetArg(a, text) == Some(a.(value := PairOf(Convert(c.0, f).value, Convert(c.1, s).value)))
  {
    assert !IsBase(a.code) && !IsVectorCode(a.code);
  }

  /** A map key starts with, or gains (overwriting) one entry per
    * `first:second` value and keeps the others. */
  lemma MapAccumulates(a: Arg, text: string, f: string, s: string)
    requires a.code & WrapperMask == MapTag && Components(a.code).Some? && Consistent(a)
    requires ParsePair(text) == Some((f, s))
    requires var c := Components(a.code).value;
      Convert(c.0, f).Some? && Convert(c.1, s).Some?
    ensures SetArg(a, text).Some?
    ensures var c := Components(a.code).value;
      var x, y := Convert(c.0, f).value, Convert(c.1, s).value;
      SetArg(a, text).value.value == if a.value == Empty then MapOf(map[x := y]) else MapOf(a.value.m[x := y])
  {
  }

  /** Any_cast never fails on a consistent entry: the exceptions set can
    * raise come from std::stoi and std::stod, on a key whose type
    * involves integers or floating-point numbers. */
  lemma SetNeverMiscasts(a: Arg, text: string)
    requires Consistent(a)
    requires NumberFree(a.code)
    ensures SetArg(a, text).Some?
  {
    if IsVectorCode(a.code) {
      assert a.code & 0x0fff == a.code & 0x000f;
    }
  }

  lemma SetKeepsConsistent(a: Arg, text: string)
    requires Consistent(a)
    requires SetArg(a, text).Some?
    ensures Consistent(SetArg(a, text).value)
  {
    if IsBase(a.code) {
    } else if IsVectorCode(a.code) {
      VectorKeepsConsistent(a, text);
    } else if a.code & WrapperMask == PairTag {
    } else if a.code & WrapperMask == MapTag {
      MapKeepsConsistent(a, text);
    }
  }

  lemma VectorKeepsConsistent(a: Arg, text: string)
    requires Consistent(a) && IsVectorCode(a.code)
    requires SetArg(a, text).Some?
    ensures Consistent(SetArg(a, text).value)
  {
    var c := a.code & 0x0fff;
    var x := Convert(c, text).value;
    var b := SetArg(a, text).value;
    if a.value == Empty {
      assert b.value == Vec([x]);
    } else {
      assert b.value.xs == a.value.xs + [x];
      forall e | e in b.value.xs ensures Kind(e) == c {
        assert e in a.value.xs || e == x;
      }
    }
    assert IsVecOf(b.value, c);
  }

  lemma MapKeepsConsistent(a: Arg, text: string)
    requires Consistent(a) && !IsBase(a.code) && !IsVectorCode(a.code) && a.code & WrapperMask == MapTag
    requires SetArg(a, text).Some?
    ensures Consistent(SetArg(a, text).value)
  {
    var b := SetArg(a, text).value;
    match ParsePair(text)
    case None =>
    case Some((f, s)) =>
      match Components(a.code)
      case None =>
      case Some((c1, c2)) =>
        var x, y := Convert(c1, f).value, Convert(c2, s).value;
        if a.value != Empty {
          assert b.value.m == a.value.m[x := y];
        }
        assert IsMapOf(b.value, c1, c2);
  }

  // ---------------------------------------------------------------------
  // The argv state machine of parse()
  // ---------------------------------------------------------------------

  /** Progress of parse(): the table and the current key, or the table as
    * it stood when an exception escaped. */
  datatype Progress = Going(table: Table, key: Option<string>) | Stopped(table: Table)

  predicate StartsWithDash(s: string) { |s| > 0 && s[0] == '-' }

  /** The undeclared string key given a second value becomes a
    * vector<string> holding the first one. */
  function Promote(a: Arg): (r: Option<Arg>)
    ensures Consistent(a) ==> r.Some? && Consistent(r.value)
    ensures r.Some? ==> r.value.(code := a.code, value := a.value) == a
    ensures r.Some? && r.value != a ==>
      !a.declared && a.code == String && a.value.Base? && r.value.code == VectorTag | String &&
      r.value.value == Vec([a.value.x])
  {
    if !a.declared && a.code == String && a.value != Empty then
      (if a.value.Base? && a.value.x.Str? then Some(a.(code := VectorTag | String, value := Vec([a.value.x])))
       else None)
    else Some(a)
  }

  /** An argument recognised as key k; `flag` says whether the argument
    * after it is a key too. */
  function KeyStep(unlimited: bool, t: Table, k: string, flag: bool): (r: Progress)
    ensures r.Going?
    ensures r.key == (if k in t || unlimited then Some(k) else None)
    ensures r.table.Keys == if unlimited then t.Keys + {k} else t.Keys
    ensures forall j :: j in t && j != k ==> r.table[j] == t[j]
  {
    if k !in t && !unlimited then Going(t, None)
    else if k in t && t[k].isDefault then
      Going(t[k := t[k].(value := if flag && t[k].code == Boolean then Base(Bool(true)) else Empty,
                         isDefault := false)], Some(k))
    else if k !in t then
      Going(t[k := if flag then Arg(Boolean, Base(Bool(true)), "", false, false)
                   else Arg(String, Empty, "", false, false)], Some(k))
    else Going(t, Some(k))
  }

  /** A value for the current key k. */
  function ValueStep(t: Table, k: string, text: string): (r: Progress)
    ensures r.table.Keys == t.Keys + {k}
    ensures forall j :: j in t && j != k ==> r.table[j] == t[j]
    ensures r.Going? ==> r.key == Some(k)
  {
    var a := Lookup(t, k);
    match Promote(a)
    case None => Stopped(t[k := a])
    case Some(p) =>
      match SetArg(p, text)
      case None => Stopped(t[k := p])
      case Some(q) => Going(t[k := q], Some(k))
  }

  /** One iteration of the argv loop. */
  function Step(unlimited: bool, t: Table, key: Option<string>, arg: string, next: Option<string>): Progress {
    if StartsWithDash(arg) && ParseKey(arg).Some? then KeyStep(unlimited, t, ParseKey(arg).value, NextIsKey(next))
    else if StartsWithDash(arg) then Going(t, None)
    else if key.None? then Going(t, None)
    else ValueStep(t, key.value, arg)
  }

  predicate NextIsKey(next: Option<string>) {
    next.Some? && ParseKey(next.value).Some?
  }

  function NextArg(argv: seq<string>, i: nat): Option<string>
    requires i < |argv|
  {
    if i + 1 < |argv| then Some(argv[i + 1]) else None
  }

  function Advance(unlimited: bool, p: Progress, argv: seq<string>, i: nat): Progress
    requires i < |argv|
  {
    match p
    case Stopped(_) => p
    case Going(t, key) => Step(unlimited, t, key, argv[i], NextArg(argv, i))
  }

  /** The progress after argv[1..j] starting from table `start`. */
  function RunTo(unlimited: bool, start: Table, argv: seq<string>, j: nat): Progress
    requires j <= |argv|
    decreases j
  {
    if j <= 1 then Going(start, None)
    else Advance(unlimited, RunTo(unlimited, start, argv, j - 1), argv, j - 1)
  }

  /** One more argument, from a run still going. */
  lemma RunToNext(unlimited: bool, start: Table, argv: seq<string>, i: nat, t: Table, key: Option<string>)
    requires 1 <= i < |argv| && RunTo(unlimited, start, argv, i) == Going(t, key)
    ensures RunTo(unlimited, start, argv, i + 1) == Step(unlimited, t, key, argv[i], NextArg(argv, i))
  {
  }

  /** Only a value can make a step raise; a step never removes a key, and
    * the current key it leaves is in the table. */
  lemma StepKeepsKeys(unlimited: bool, t: Table, key: Option<string>, arg: string, next: Option<string>)
    ensures var r := Step(unlimited, t, key, arg, next);
      (r.Stopped? ==> !StartsWithDash(arg) && key.Some?) &&
      t.Keys <= r.table.Keys &&
      (r.Going? && r.key.Some? ==> r.key.value in r.table)
  {
  }

  /** Parsing never removes a key, and the current key is always in the table. */
  lemma {:induction false} RunKeepsKeys(unlimited: bool, start: Table, argv: seq<string>, j: nat)
    requires j <= |argv|
    ensures start.Keys <= RunTo(unlimited, start, argv, j).table.Keys
    ensures var p := RunTo(unlimited, start, argv, j);
      p.Going? && p.key.Some? ==> p.key.value in p.table
    decreases j
  {
    if j > 1 {
      RunKeepsKeys(unlimited, start, argv, j - 1);
      var p := RunTo(unlimited, start, argv, j - 1);
      if p.Going? {
        StepKeepsKeys(unlimited, p.table, p.key, argv[j - 1], NextArg(argv, j - 1));
      }
    }
  }

  datatype Outcome = Returned(code: int) | Raised

  // ---- properties of one step ----

  /** The first occurrence of a declared key drops its default value; a
    * boolean key directly followed by another key becomes true, any
    * other key is left without a value until one follows. */
  lemma FirstUseClearsDefault(unlimited: bool, t: Table, key: Option<string>, arg: string, next: Option<string>, k: string)
    requires StartsWithDash(arg) && ParseKey(arg) == Some(k)
    requires k in t && t[k].isDefault
    ensures Step(unlimited, t, key, arg, next).Going?
    ensures var p := Step(unlimited, t, key, arg, next);
      p.key == Some(k) && p.table.Keys == t.Keys && k in p.table &&
      !p.table[k].isDefault && p.table[k].code == t[k].code &&
      (next.Some? && ParseKey(next.value).Some? && t[k].code == Boolean <==> p.table[k].value == Base(Bool(true))) &&
      (p.table[k].value != Empty ==> p.table[k].value == Base(Bool(true))) &&
      forall o :: o in t && o != k ==> p.table[o] == t[o]
  {
  }

  /** In limited mode an undeclared key changes nothing and leaves no
    * current key. */
  lemma LimitedIgnoresUndeclared(t: Table, key: Option<string>, arg: string, next: Option<string>)
    requires StartsWithDash(arg) && ParseKey(arg).Some? && ParseKey(arg).value !in t
    ensures Step(false, t, key, arg, next) == Going(t, None)
  {
  }

  /** In unlimited mode an undeclared key is added, as a boolean `true`
    * when another key follows and as an empty string otherwise. */
  lemma UnlimitedAddsUndeclared(t: Table, key: Option<string>, arg: string, next: Option<string>)
    requires StartsWithDash(arg) && ParseKey(arg).Some? && ParseKey(arg).value !in t
    ensures var k := ParseKey(arg).value; var p := Step(true, t, key, arg, next);
      p.Going? && p.key == Some(k) && p.table.Keys == t.Keys + {k} &&
      !p.table[k].declared &&
      (if next.Some? && ParseKey(next.value).Some? then p.table[k].code == Boolean && p.table[k].value == Base(Bool(true))
       else p.table[k].code == String && p.table[k].value == Empty)
  {
  }

  /** An argument starting with '-' that is not a valid key drops the
    * current key without touching the table. */
  lemma InvalidDashClearsKey(unlimited: bool, t: Table, key: Option<string>, arg: string, next: Option<string>)
    requires StartsWithDash(arg) && ParseKey(arg).None?
    ensures Step(unlimited, t, key, arg, next) == Going(t, None)
  {
  }

  lemma {:induction false} RunToStopped(unlimited: bool, start: Table, argv: seq<string>, i: nat, j: nat, t: Table)
    requires i <= j <= |argv|
    requires RunTo(unlimited, start, argv, i) == Stopped(t)
    ensures RunTo(unlimited, start, argv, j) == Stopped(t)
    decreases j
  {
    if j > i {
      RunToStopped(unlimited, start, argv, i, j - 1, t);
    }
  }

  /** With no current key, the values up to the next '-' argument are
    * ignored: the table is the same after them. */
  lemma {:induction false} ValuesWithoutKeyIgnored(unlimited: bool, start: Table, argv: seq<string>, i: nat, j: nat, t: Table)
    requires 1 <= i <= j <= |argv|
    requires RunTo(unlimited, start, argv, i) == Going(t, None)
    requires forall m :: i <= m < j ==> !StartsWithDash(argv[m])
    ensures RunTo(unlimited, start, argv, j) == Going(t, None)
    decreases j
  {
    if j > i {
      ValuesWithoutKeyIgnored(unlimited, start, argv, i, j - 1, t);
    }
  }

  /** In limited mode the parse never adds a key to the table: every key
    * it touches was declared beforehand. */
  lemma {:induction false} LimitedKeepsKeys(start: Table, argv: seq<string>, j: nat)
    requires j <= |argv|
    ensures RunTo(false, start, argv, j).table.Keys == start.Keys
    ensures var p := RunTo(false, start, argv, j); p.Going? && p.key.Some? ==> p.key.value in start
    decreases j
  {
    if j > 1 {
      LimitedKeepsKeys(start, argv, j - 1);
    }
  }

  /** An undeclared key that receives two values ends as a vector<string>
    * holding both, in order. */
  lemma UndeclaredKeyPromoted(t: Table, key: Option<string>, arg: string, v1: string, v2: string, next: Option<string>)
    requires StartsWithDash(arg) && ParseKey(arg).Some? && ParseKey(arg).value !in t
    requires !StartsWithDash(v1) && !StartsWithDash(v2)
    ensures var k := ParseKey(arg).value;
      var p1 := Step(true, t, key, arg, Some(v1));
      p1.Going? &&
      var p2 := Step(true, p1.table, p1.key, v1, Some(v2));
      p2.Going? &&
      var p3 := Step(true, p2.table, p2.key, v2, next);
      p3.Going? && p3.key == Some(k) &&
      p3.table[k].code == VectorTag | String && p3.table[k].value == Vec([Str(v1), Str(v2)])
  {
    var k := ParseKey(arg).value;
    assert ParseKey(v1).None?;
    var p1 := Step(true, t, key, arg, Some(v1));
    assert p1 == Going(t[k := Arg(String, Empty, "", false, false)], Some(k));
    var p2 := Step(true, p1.table, p1.key, v1, Some(v2));
    assert p2 == Going(t[k := Arg(String, Base(Str(v1)), "", false, false)], Some(k));
  }

  lemma StepKeepsTableOk(unlimited: bool, t: Table, key: Option<string>, arg: string, next: Option<string>)
    requires TableOk(t)
    ensures TableOk(Step(unlimited, t, key, arg, next).table)
  {
    if !StartsWithDash(arg) && key.Some? {
      var k := key.value;
      var a := Lookup(t, k);
      match Promote(a)
      case None =>
      case Some(p) =>
        if SetArg(p, arg).Some? {
          SetKeepsConsistent(p, arg);
        }
    }
  }

  /** Parsing keeps every payload in step with its type code, so that
    * the any_casts of set, set_map and the promotion always succeed. */
  lemma {:induction false} RunKeepsTableOk(unlimited: bool, start: Table, argv: seq<string>, j: nat)
    requires j <= |argv|
    requires TableOk(start)
    ensures TableOk(RunTo(unlimited, start, argv, j).table)
    decreases j
  {
    if j > 1 {
      RunKeepsTableOk(unlimited, start, argv, j - 1);
      var p := RunTo(unlimited, start, argv, j - 1);
      if p.Going? {
        StepKeepsTableOk(unlimited, p.table, p.key, argv[j - 1], NextArg(argv, j - 1));
      }
    }
  }

  /** A type code that involves neither an integer nor a floating-point
    * conversion (std::stoi, std::stod), in either component. */
  predicate NumberFree(c: TypeCode) {
    c & 0x000f != Integer && (c >> 4) & 0x000f != Integer &&
    c & 0x000f != Floating && (c >> 4) & 0x000f != Floating
  }

  predicate NoNumberKeys(t: Table) {
    forall k :: k in t ==> NumberFree(t[k].code)
  }

  lemma StepNeverRaises(unlimited: bool, t: Table, key: Option<string>, arg: string, next: Option<string>)
    requires TableOk(t) && NoNumberKeys(t)
    ensures Step(unlimited, t, key, arg, next).Going?
    ensures NoNumberKeys(Step(unlimited, t, key, arg, next).table)
  {
    if !StartsWithDash(arg) && key.Some? {
      ValueStepNeverRaises(t, key.value, arg);
    }
  }

  lemma ValueStepNeverRaises(t: Table, k: string, text: string)
    requires TableOk(t) && NoNumberKeys(t)
    ensures ValueStep(t, k, text).Going?
    ensures NoNumberKeys(ValueStep(t, k, text).table)
  {
    var a := Lookup(t, k);
    assert Consistent(a) && NumberFree(a.code);
    var p := Promote(a).value;
    assert NumberFree(p.code);
    SetNeverMiscasts(p, text);
    assert SetArg(p, text).value.code == p.code;
  }

  /** Without integer- or floating-typed keys, parsing a consistent table never raises. */
  lemma {:induction false} NoNumbersNeverRaises(unlimited: bool, start: Table, argv: seq<string>, j: nat)
    requires j <= |argv|
    requires TableOk(start) && NoNumberKeys(start)
    ensures RunTo(unlimited, start, argv, j).Going?
    ensures NoNumberKeys(RunTo(unlimited, start, argv, j).table)
    decreases j
  {
    if j > 1 {
      NoNumbersNeverRaises(unlimited, start, argv, j - 1);
      RunKeepsTableOk(unlimited, start, argv, j - 1);
      var p := RunTo(unlimited, start, argv, j - 1);
      StepNeverRaises(unlimited, p.table, p.key, argv[j - 1], NextArg(argv, j - 1));
    }
  }

  // ---------------------------------------------------------------------
  // The parser object
  // ---------------------------------------------------------------------

  class Parser {
    var args: Table
    const desc: string
    const unlimited: bool

    predicate Valid()
      reads this
    {
      TableOk(args)
    }

    constructor (desc: string, unlimited: bool)
      ensures Valid()
      ensures args == map[] && this.desc == desc && this.unlimited == unlimited
    {
      this.args := map[];
      this.desc := desc;
      this.unlimited := unlimited;
    }

    /** add(opt, value, help): declares a key with a default value.  An
      * invalid key is a fatal error; the table is then left as it was. */
    method Add(opt: string, code: TypeCode, value: Value, help: string) returns (ok: bool)
      requires Typed(code, value)
      modifies this
      ensures ok <==> ParseKey(opt).Some?
      ensures ok ==> args == old(args)[ParseKey(opt).value := Arg(code, value, help, true, true)]
      ensures !ok ==> args == old(args)
      ensures old(Valid()) ==> Valid()
    {
      var key := ParseKey(opt);
      if key.None? {
        return false;
      }
      args := args[key.value := Arg(code, value, help, true, true)];
      ok := true;
    }

    /** get<T>(key): the value when the key exists, holds a value and has
      * exactly the type code of T. */
    function Get(key: string, code: TypeCode): (r: Option<Value>)
      reads this
      ensures r.Some? <==> key in args && args[key].value != Empty && args[key].code == code
      ensures r.Some? ==> r.value == args[key].value
      ensures Valid() && r.Some? && code != Unsupported ==> Typed(code, r.value)
    {
      if key in args && args[key].value != Empty && args[key].code == code then Some(args[key].value)
      else None
    }

    /** get(key, dft) */
    function GetOr(key: string, code: TypeCode, dft: Value): (r: Value)
      reads this
      ensures Get(key, code).None? ==> r == dft
      ensures Get(key, code).Some? ==> r == args[key].value
    {
      match Get(key, code)
      case None => dft
      case Some(v) => v
    }

    /** set(key, value).  `ok` is false when an exception escapes; the
      * entry operator[] created stays in the table. */
    method Set(key: string, text: string) returns (ok: bool)
      modifies this
      ensures ok <==> SetArg(Lookup(old(args), key), text).Some?
      ensures ok ==> args == old(args)[key := SetArg(Lookup(old(args), key), text).value]
      ensures !ok ==> args == old(args)[key := Lookup(old(args), key)]
    {
      var a := Lookup(args, key);
      args := args[key := a];
      var r := SetArg(a, text);
      if r.Some? {
        args := args[key := r.value];
      }
      ok := r.Some?;
    }

    /** set_pair(key, value): a text that is not `first:second` changes
      * nothing, not even the table's key set. */
    method SetPair(key: string, text: string) returns (ok: bool)
      modifies this
      ensures ParsePair(text).None? ==> ok && args == old(args)
      ensures ParsePair(text).Some? ==>
        var a := Lookup(old(args), key);
        var r := PairValue(a, ParsePair(text).value.0, ParsePair(text).value.1);
        ok == r.Some? && args == old(args)[key := if r.Some? then r.value else a]
    {
      var pv := ParsePair(text);
      if pv.None? {
        return true;
      }
      var a := Lookup(args, key);
      var r := PairValue(a, pv.value.0, pv.value.1);
      args := args[key := if r.Some? then r.value else a];
      ok := r.Some?;
    }

    /** set_map(key, value) */
    method SetMap(key: string, text: string) returns (ok: bool)
      modifies this
      ensures ParsePair(text).None? ==> ok && args == old(args)
      ensures ParsePair(text).Some? ==>
        var a := Lookup(old(args), key);
        var r := MapValue(a, ParsePair(text).value.0, ParsePair(text).value.1);
        ok == r.Some? && args == old(args)[key := if r.Some? then r.value else a]
    {
      var pv := ParsePair(text);
      if pv.None? {
        return true;
      }
      var a := Lookup(args, key);
      var r := MapValue(a, pv.value.0, pv.value.1);
      args := args[key := if r.Some? then r.value else a];
      ok := r.Some?;
    }

    /** The key branch of the parse loop (the argument is a valid key). */
    method TakeKey(k: string, nextIsKey: bool) returns (key: Option<string>)
      modifies this
      ensures KeyStep(unlimited, old(args), k, nextIsKey) == Going(args, key)
    {
      if k !in args && !unlimited {
        // limited parser, unknown name: drop it and forget the current key
        key := None;
      } else if k in args && args[k].isDefault {
        // first mention of a declared key: its default goes, a flag may become true
        var v := if nextIsKey && args[k].code == Boolean then Base(Bool(true)) else Empty;
        args := args[k := args[k].(value := v, isDefault := false)];
        key := Some(k);
      } else if k !in args {
        // unlimited parser, unknown name: enter it as a flag or an empty string
        args := args[k := if nextIsKey then Arg(Boolean, Base(Bool(true)), "", false, false)
                          else Arg(String, Empty, "", false, false)];
        key := Some(k);
      } else {
        key := Some(k);
      }
    }

    /** The value branch of the parse loop: promote an undeclared string
      * key holding a value, then set.  `ok` is false when an exception
      * escapes. */
    method TakeValue(k: string, text: string) returns (ok: bool)
      modifies this
      ensures ValueStep(old(args), k, text) == if ok then Going(args, Some(k)) else Stopped(args)
    {
      var a := Lookup(args, k);
      var p := Promote(a);
      if p.None? {
        args := args[k := a];
        return false;
      }
      ghost var t := args;
      args := args[k := p.value];
      ghost var t1 := args;
      assert Lookup(t1, k) == p.value;
      ok := Set(k, text);
      if ok {
        assert args == t[k := SetArg(p.value, text).value];
      } else {
        assert args == t[k := p.value];
      }
    }

    /** One iteration of the parse loop, on argument `arg` followed by
      * `next`; `ok` is false when an exception escapes. */
    method Consume(key: Option<string>, arg: string, next: Option<string>) returns (ok: bool, key': Option<string>)
      modifies this
      ensures Step(unlimited, old(args), key, arg, next) == if ok then Going(args, key') else Stopped(args)
    {
      ok := true;
      if StartsWithDash(arg) && ParseKey(arg).Some? {
        key' := TakeKey(ParseKey(arg).value, NextIsKey(next));
      } else if StartsWithDash(arg) || key.None? {
        // no current key: skip the argument
        key' := None;
      } else {
        ok := TakeValue(key.value, arg);
        key' := key;
      }
    }

    /** parse(argc, argv): -1 without arguments; otherwise every argument
      * is processed left to right and the result is 0, unless an
      * exception escapes. */
    method Parse(argv: seq<string>) returns (r: Outcome)
      modifies this
      ensures |argv| < 2 ==> r == Returned(-1) && args == old(args)
      ensures |argv| >= 2 ==>
        match RunTo(unlimited, old(args), argv, |argv|)
        case Going(t, _) => r == Returned(0) && args == t
        case Stopped(t) => r == Raised && args == t
    {
      if |argv| < 2 {
        return Returned(-1);
      }
      ghost var start := args;
      var key: Option<string> := None;
      var i := 1;
      while i < |argv|
        invariant 1 <= i <= |argv|
        invariant RunTo(unlimited, start, argv, i) == Going(args, key)
      {
        RunToNext(unlimited, start, argv, i, args, key);
        var ok;
        ok, key := Consume(key, argv[i], NextArg(argv, i));
        if !ok {
          RunToStopped(unlimited, start, argv, i + 1, |argv|, args);
          return Raised;
        }
        i := i + 1;
      }
      r := Returned(0);
    }
  }
}
