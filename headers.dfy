/** Response headers and the lookup `GetIntHeaderValue` performs on them:
    the first header with a given name, its value read by `int.TryParse`. */
module Headers {
  import opened Wrappers
  import opened Int32

  /** One response header, as RestSharp hands it over (a name and a value). */
  datatype Header = Header(name: string, value: string)

  /** The exception the as-written lookup raises. */
  datatype LookupFault = NullReference

  // ---------------------------------------------------------------------------
  // int.TryParse with NumberStyles.Integer: optional white space around an
  // optional sign and one or more decimal digits, within the range of int.
  // ---------------------------------------------------------------------------

  /** The white space NumberStyles.AllowLeadingWhite/AllowTrailingWhite admit:
      U+0009 to U+000D and U+0020. */
  predicate IsWhite(c: char) {
    c == ' ' || '\t' <= c <= '\r'
  }

  predicate IsDigit(c: char) {
    '0' <= c <= '9'
  }

  predicate AllDigits(s: string) {
    forall i :: 0 <= i < |s| ==> IsDigit(s[i])
  }

  predicate AllWhite(s: string) {
    forall i :: 0 <= i < |s| ==> IsWhite(s[i])
  }

  function DigitValue(c: char): nat
    requires IsDigit(c)
  {
    c as int - '0' as int
  }

  /** Where the scan of `int.TryParse` stands: before the number, after its
      sign, inside its digits (with the magnitude read so far), or after it. */
  datatype Phase =
    | Leading
    | Signed(negative: bool)
    | InDigits(negative: bool, magnitude: nat)
    | Trailing(negative: bool, magnitude: nat)

  /** The result once the input is used up: a number was read and fits in
      an int, or the parse fails. */
  function Finish(phase: Phase): Option<int32> {
    match phase
    case InDigits(negative, m) => Signed32(negative, m)
    case Trailing(negative, m) => Signed32(negative, m)
    case _ => None
  }

  function Signed32(negative: bool, m: nat): Option<int32> {
    var v: int := if negative then -(m as int) else m;
    if MinValue <= v <= MaxValue then Some(v) else None
  }

  /** One character at a time, from the given phase to the end of `s`. */
  function Scan(s: string, phase: Phase): Option<int32>
    decreases |s|
  {
    if s == [] then Finish(phase)
    else
      var c := s[0];
      match phase
      case Leading =>
        if IsWhite(c) then Scan(s[1..], Leading)
        else if c == '-' then Scan(s[1..], Signed(true))
        else if c == '+' then Scan(s[1..], Signed(false))
        else if IsDigit(c) then Scan(s[1..], InDigits(false, DigitValue(c)))
        else None
      case Signed(negative) =>
        if IsDigit(c) then Scan(s[1..], InDigits(negative, DigitValue(c))) else None
      case InDigits(negative, m) =>
        if IsDigit(c) then Scan(s[1..], InDigits(negative, m * 10 + DigitValue(c)))
        else if IsWhite(c) then Scan(s[1..], Trailing(negative, m))
        else None
      case Trailing(negative, m) =>
        if IsWhite(c) then Scan(s[1..], Trailing(negative, m)) else None
  }

  /** `int.TryParse(s, out result)`: `Some(result)` when it returns true,
      `None` when it returns false (and leaves `result` at 0). */
  function ParseInt32(s: string): (r: Option<int32>)
    ensures r.Some? ==> exists i :: 0 <= i < |s| && IsDigit(s[i])
  {
    NoDigitNoNumber(s);
    Scan(s, Leading)
  }

  /** The magnitude `m` followed by the digits of `d`, read left to right. */
  function DigitsFrom(m: nat, d: string): nat
    requires AllDigits(d)
    decreases |d|
  {
    if d == [] then m else DigitsFrom(m * 10 + DigitValue(d[0]), d[1..])
  }

  /** The decimal digits of a natural number, without leading zeros. */
  function NatDigits(n: nat): (s: string)
    ensures s != [] && AllDigits(s)
  {
    if n < 10 then [('0' as int + n) as char]
    else NatDigits(n / 10) + [('0' as int + n % 10) as char]
  }

  /** `n.ToString()` for a C# int, in the invariant culture. */
  function FormatInt32(n: int32): string {
    if n < 0 then "-" + NatDigits(Abs(n)) else NatDigits(n)
  }

  lemma {:induction false} DigitsFromSnoc(m: nat, d: string, c: char)
    requires AllDigits(d) && IsDigit(c)
    ensures AllDigits(d + [c])
    ensures DigitsFrom(m, d + [c]) == DigitsFrom(m, d) * 10 + DigitValue(c)
    decreases |d|
  {
    if d != [] {
      assert (d + [c])[1..] == d[1..] + [c];
      DigitsFromSnoc(m * 10 + DigitValue(d[0]), d[1..], c);
    }
  }

  lemma {:induction false} NatDigitsValue(n: nat)
    ensures DigitsFrom(0, NatDigits(n)) == n
  {
    if n >= 10 {
      NatDigitsValue(n / 10);
      DigitsFromSnoc(0, NatDigits(n / 10), ('0' as int + n % 10) as char);
    }
  }

  lemma {:induction false} ScanSkipsLeadingWhite(pre: string, s: string)
    requires AllWhite(pre)
    ensures Scan(pre + s, Leading) == Scan(s, Leading)
  {
    if pre != [] {
      var t := pre + s;
      assert t != [] && t[0] == pre[0] && IsWhite(t[0]);
      assert t[1..] == pre[1..] + s;
      assert Scan(t, Leading) == Scan(t[1..], Leading);
      ScanSkipsLeadingWhite(pre[1..], s);
    } else {
      assert pre + s == s;
    }
  }

  lemma {:induction false} ScanSkipsTrailingWhite(post: string, negative: bool, m: nat)
    requires AllWhite(post)
    ensures Scan(post, Trailing(negative, m)) == Signed32(negative, m)
  {
    if post != [] {
      ScanSkipsTrailingWhite(post[1..], negative, m);
    }
  }

  lemma {:induction false} ScanDigits(d: string, post: string, negative: bool, m: nat)
    requires AllDigits(d) && AllWhite(post)
    ensures Scan(d + post, InDigits(negative, m)) == Signed32(negative, DigitsFrom(m, d))
  {
    if d != [] {
      assert (d + post)[1..] == d[1..] + post;
      ScanDigits(d[1..], post, negative, m * 10 + DigitValue(d[0]));
    } else if post != [] {
      assert d + post == post;
      ScanSkipsTrailingWhite(post[1..], negative, m);
    }
  }

  /** The signs `int.TryParse` admits before the digits. */
  predicate IsSign(sign: string) {
    sign == "" || sign == "+" || sign == "-"
  }

  /** Digits with white space after them, after an optional sign, read as
      the number they denote. */
  lemma ScanNumber(sign: string, d: string, post: string)
    requires IsSign(sign) && d != [] && AllDigits(d) && AllWhite(post)
    ensures Scan(sign + d + post, Leading) == Signed32(sign == "-", DigitsFrom(0, d))
  {
    var body := d + post;
    assert body[0] == d[0] && IsDigit(d[0]);
    assert body[1..] == d[1..] + post;
    ScanDigits(d[1..], post, sign == "-", DigitValue(d[0]));
    if sign == "" {
      assert sign + d + post == body;
    } else {
      var s := sign + d + post;
      assert s[0] == sign[0] && s[1..] == body;
      assert Scan(s, Leading) == Scan(body, Signed(sign == "-"));
    }
  }

  /** Parsing what `ToString` prints gives the number back, with any white
      space around it. */
  lemma ParseFormat(n: int32, pre: string, post: string)
    requires AllWhite(pre) && AllWhite(post)
    ensures ParseInt32(pre + FormatInt32(n) + post) == Some(n)
  {
    var sign, d := FormatShape(n);
    ParseWellFormed(pre, sign, d, post);
    assert pre + FormatInt32(n) + post == pre + sign + d + post;
  }

  /** `ToString` prints an optional minus sign and the digits of the
      magnitude. */
  lemma FormatShape(n: int32) returns (sign: string, d: string)
    ensures FormatInt32(n) == sign + d
    ensures IsSign(sign) && d != [] && AllDigits(d)
    ensures Signed32(sign == "-", DigitsFrom(0, d)) == Some(n)
  {
    d := NatDigits(Abs(n));
    NatDigitsValue(Abs(n));
    if n < 0 {
      sign := "-";
    } else {
      sign := "";
      assert sign + d == d;
    }
  }

  /** Every string of the shape `int.TryParse` accepts, white space, an
      optional sign, digits and white space, parses as the signed value of
      its digits when that fits in an int, and fails otherwise. */
  lemma ParseWellFormed(pre: string, sign: string, d: string, post: string)
    requires AllWhite(pre) && IsSign(sign) && d != [] && AllDigits(d) && AllWhite(post)
    ensures ParseInt32(pre + sign + d + post) == Signed32(sign == "-", DigitsFrom(0, d))
  {
    assert pre + sign + d + post == pre + (sign + d + post);
    ScanSkipsLeadingWhite(pre, sign + d + post);
    ScanNumber(sign, d, post);
  }

  /** What a successful parse means: the string is white space, an optional
      sign, one or more digits and white space, and the number is the signed
      value of those digits. */
  lemma ParseSound(s: string, n: int32) returns (pre: string, sign: string, d: string, post: string)
    requires ParseInt32(s) == Some(n)
    ensures s == pre + sign + d + post
    ensures AllWhite(pre) && IsSign(sign) && d != [] && AllDigits(d) && AllWhite(post)
    ensures Signed32(sign == "-", DigitsFrom(0, d)) == Some(n)
  {
    pre, sign, d, post := LeadingSound(s, n);
  }

  lemma {:induction false} LeadingSound(s: string, n: int32) returns (pre: string, sign: string, d: string, post: string)
    requires Scan(s, Leading) == Some(n)
    ensures s == pre + sign + d + post
    ensures AllWhite(pre) && IsSign(sign) && d != [] && AllDigits(d) && AllWhite(post)
    ensures Signed32(sign == "-", DigitsFrom(0, d)) == Some(n)
  {
    assert s != [];
    var c := s[0];
    if IsWhite(c) {
      var pre';
      pre', sign, d, post := LeadingSound(s[1..], n);
      pre := [c] + pre';
      assert s == [c] + s[1..];
    } else if c == '-' || c == '+' {
      pre, sign := [], [c];
      d, post := SignedSound(s[1..], c == '-', n);
      assert s == sign + s[1..];
    } else {
      assert IsDigit(c);
      var d';
      d', post := DigitsSound(s[1..], false, DigitValue(c), n);
      pre, sign, d := [], [], [c] + d';
      assert d[1..] == d';
      assert s == [c] + s[1..];
    }
  }

  lemma SignedSound(s: string, negative: bool, n: int32) returns (d: string, post: string)
    requires Scan(s, Signed(negative)) == Some(n)
    ensures s == d + post && d != [] && AllDigits(d) && AllWhite(post)
    ensures Signed32(negative, DigitsFrom(0, d)) == Some(n)
  {
    assert s != [] && IsDigit(s[0]);
    var d';
    d', post := DigitsSound(s[1..], negative, DigitValue(s[0]), n);
    d := [s[0]] + d';
    assert d[1..] == d';
    assert s == [s[0]] + s[1..];
  }

  lemma {:induction false} DigitsSound(s: string, negative: bool, m: nat, n: int32) returns (d: string, post: string)
    requires Scan(s, InDigits(negative, m)) == Some(n)
    ensures s == d + post && AllDigits(d) && AllWhite(post)
    ensures Signed32(negative, DigitsFrom(m, d)) == Some(n)
  {
    if s == [] {
      d, post := [], [];
    } else if IsDigit(s[0]) {
      var d';
      d', post := DigitsSound(s[1..], negative, m * 10 + DigitValue(s[0]), n);
      d := [s[0]] + d';
      assert d[1..] == d';
      assert s == [s[0]] + s[1..];
    } else {
      assert IsWhite(s[0]);
      TrailingSound(s[1..], negative, m, n);
      d, post := [], s;
    }
  }

  lemma {:induction false} TrailingSound(s: string, negative: bool, m: nat, n: int32)
    requires Scan(s, Trailing(negative, m)) == Some(n)
    ensures AllWhite(s) && Signed32(negative, m) == Some(n)
  {
    if s != [] {
      TrailingSound(s[1..], negative, m, n);
    }
  }

  /** A digit string whose signed value does not fit in an int does not
      parse: `int.TryParse` fails rather than wrapping. */
  lemma ParseOutOfRange(d: string, negative: bool)
    requires d != [] && AllDigits(d)
    requires var v: int := if negative then -(DigitsFrom(0, d) as int) else DigitsFrom(0, d);
             v < MinValue || MaxValue < v
    ensures ParseInt32((if negative then "-" else "") + d) == None
  {
    ScanNumber(if negative then "-" else "", d, "");
    assert (if negative then "-" else "") + d + "" == (if negative then "-" else "") + d;
  }

  /** A string with no digit in it never parses. */
  lemma NoDigitNoNumber(s: string)
    ensures (forall i :: 0 <= i < |s| ==> !IsDigit(s[i])) ==> Scan(s, Leading) == None
  {
    if forall i :: 0 <= i < |s| ==> !IsDigit(s[i]) {
      ScanWithoutDigits(s, Leading);
    }
  }

  lemma {:induction false} ScanWithoutDigits(s: string, phase: Phase)
    requires forall i :: 0 <= i < |s| ==> !IsDigit(s[i])
    requires phase.Leading? || phase.Signed?
    ensures Scan(s, phase) == None
  {
    if s != [] {
      ScanWithoutDigits(s[1..], if phase.Leading? && s[0] == '-' then Signed(true)
                              else if phase.Leading? && s[0] == '+' then Signed(false)
                              else phase);
    }
  }

  // ---------------------------------------------------------------------------
  // FirstOrDefault(x => x.Name == name)
  // ---------------------------------------------------------------------------

  /** `i` is the position of the first header called `name` (the comparison is
      ordinal and case-sensitive, like C#'s string `==`). */
  predicate IsFirstNamed(headers: seq<Header>, name: string, i: int) {
    0 <= i < |headers| && headers[i].name == name &&
    forall j :: 0 <= j < i ==> headers[j].name != name
  }

  predicate HasNamed(headers: seq<Header>, name: string) {
    exists i :: 0 <= i < |headers| && headers[i].name == name
  }

  /** The position `FirstOrDefault` stops at, if any header has the name. */
  function FirstIndex(headers: seq<Header>, name: string): (r: Option<nat>)
    ensures r.Some? ==> IsFirstNamed(headers, name, r.value)
    ensures r.None? <==> !HasNamed(headers, name)
  {
    if headers == [] then None
    else if headers[0].name == name then Some(0)
    else
      match FirstIndex(headers[1..], name)
      case None => None
      case Some(i) => Some(i + 1)
  }

  lemma FirstNamedUnique(headers: seq<Header>, name: string, i: int, j: int)
    requires IsFirstNamed(headers, name, i) && IsFirstNamed(headers, name, j)
    ensures i == j
  {
  }

  // ---------------------------------------------------------------------------
  // GetIntHeaderValue
  // ---------------------------------------------------------------------------

  /** The integer value of the first header called `name`, or 0 when the
      collection is null, no header has the name, or its value does not
      parse. This is the lookup as its documentation describes it. */
  function GetIntHeaderValue(headers: Option<seq<Header>>, name: string): (r: int32)
    ensures headers.None? ==> r == 0
    ensures headers.Some? && !HasNamed(headers.value, name) ==> r == 0
    ensures forall i :: headers.Some? && IsFirstNamed(headers.value, name, i) ==>
              r == ParseInt32(headers.value[i].value).GetOr(0)
  {
    match headers
    case None => 0
    case Some(hs) =>
      match FirstIndex(hs, name)
      case None => 0
      case Some(i) =>
        assert forall k :: IsFirstNamed(hs, name, k) ==> k == i by {
          forall k | IsFirstNamed(hs, name, k) ensures k == i {
            FirstNamedUnique(hs, name, i, k);
          }
        }
        ParseInt32(hs[i].value).GetOr(0)
  }

  /** The lookup as written: when no header has the name, `FirstOrDefault`
      yields null and reading its `Value` raises a NullReferenceException.
      Whenever it does not raise, it agrees with `GetIntHeaderValue`. */
  function GetIntHeaderValueAsWritten(headers: Option<seq<Header>>, name: string): (r: Result<int32, LookupFault>)
    ensures r.Failure? <==> headers.Some? && !HasNamed(headers.value, name)
    ensures r.Success? ==> r.value == GetIntHeaderValue(headers, name)
  {
    match headers
    case None => Success(0)
    case Some(hs) =>
      match FirstIndex(hs, name)
      case None => Failure(NullReference)
      case Some(i) => Success(ParseInt32(hs[i].value).GetOr(0))
  }

  /** A non-null header collection without the name makes the as-written
      lookup raise, where the documented lookup returns 0. */
  lemma AbsentHeaderDereferencesNull(headers: seq<Header>, name: string)
    requires forall i :: 0 <= i < |headers| ==> headers[i].name != name
    ensures GetIntHeaderValueAsWritten(Some(headers), name) == Failure(NullReference)
    ensures GetIntHeaderValue(Some(headers), name) == 0
  {
  }
}
