/** The slice of Python's runtime the model needs: the values a decoded
    metadata block can hold, the exceptions the modelled code raises, the
    builtin conversions `int()` and `float()` applied to those values, and
    the two tensor constructors `torch.Tensor` and `torch.tensor`. */
module Python {
  import opened Text

  datatype Option<+T> = None | Some(value: T)

  datatype Result<+T, +E> = Ok(value: T) | Err(error: E) {
    predicate IsFailure() { Err? }

    function PropagateFailure<U>(): Result<U, E>
      requires Err?
    {
      Err(error)
    }

    function Extract(): T
      requires Ok?
    {
      value
    }
  }

  /** A value as it comes out of a JSON metadata block, or as it is stored
      in a decoded metadata dictionary. `PyTensor` wraps the value a tensor
      was built from; its elements are not converted. */
  datatype PyValue =
    | PyNone
    | PyBool(b: bool)
    | PyInt(i: int)
    | PyFloat(r: real)
    | PyStr(s: string)
    | PyList(items: seq<PyValue>)
    | PyTensor(source: PyValue)

  /** The exceptions the modelled code can raise. */
  datatype PyError =
    | AssertionError(message: string)
    | KeyError(key: string)
    | IndexError(index: int)
    | TypeError(message: string)
    | ValueError(message: string)
    | UnboundLocalError(name: string)
    | AttributeError(message: string)
    | RuntimeError(message: string)
    | ImwriteError(path: string)
    | CvtColorError(shape: seq<nat>)   // `cv2.error` from `cv2.cvtColor`, with the shape of the array it refused

  /** Truncation toward zero, as Python's `int()` does to a float. */
  function Trunc(x: real): (r: int)
    ensures 0.0 <= x ==> r as real <= x < r as real + 1.0
    ensures x < 0.0 ==> r as real - 1.0 < x <= r as real
  {
    if x >= 0.0 then x.Floor else -((-x).Floor)
  }

  /** The whitespace `str.strip()` removes, within ASCII: tab, line feed,
      vertical tab, form feed, carriage return, the separators U+001C to
      U+001F, and space. */
  predicate IsSpace(c: char) { 9 <= c as int <= 13 || 28 <= c as int <= 32 }

  function StripLeft(s: string): (r: string)
    ensures |r| <= |s|
    ensures r == [] || !IsSpace(r[0])
    decreases |s|
  {
    if s != [] && IsSpace(s[0]) then StripLeft(s[1..]) else s
  }

  function StripRight(s: string): (r: string)
    ensures |r| <= |s|
    ensures r != [] ==> r[0] == s[0]
    ensures r == [] || !IsSpace(r[|r| - 1])
    decreases |s|
  {
    if s != [] && IsSpace(s[|s| - 1]) then StripRight(s[..|s| - 1]) else s
  }

  /** `s.strip()`. */
  function Strip(s: string): (r: string)
    ensures r == [] || (!IsSpace(r[0]) && !IsSpace(r[|r| - 1]))
  {
    StripRight(StripLeft(s))
  }

  /** Stripping removes exactly the whitespace around a text that neither
      starts nor ends with whitespace. */
  lemma StripPadded(a: string, t: string, b: string)
    requires forall i :: 0 <= i < |a| ==> IsSpace(a[i])
    requires forall i :: 0 <= i < |b| ==> IsSpace(b[i])
    requires t != [] && !IsSpace(t[0]) && !IsSpace(t[|t| - 1])
    ensures Strip(a + t + b) == t
  {
    StripLeftPadding(a, t + b);
    StripRightPadding(t, b);
    assert a + t + b == a + (t + b);
  }

  /** Text that neither starts nor ends with whitespace is its own strip. */
  lemma StripBare(t: string)
    requires t != [] && !IsSpace(t[0]) && !IsSpace(t[|t| - 1])
    ensures Strip(t) == t
  {
    assert StripLeft(t) == t;
  }

  lemma {:induction false} StripLeftPadding(a: string, t: string)
    requires forall i :: 0 <= i < |a| ==> IsSpace(a[i])
    requires t != [] && !IsSpace(t[0])
    ensures StripLeft(a + t) == t
    decreases |a|
  {
    if a != [] {
      assert (a + t)[1..] == a[1..] + t;
      StripLeftPadding(a[1..], t);
    } else {
      assert a + t == t;
    }
  }

  lemma {:induction false} StripRightPadding(t: string, b: string)
    requires forall i :: 0 <= i < |b| ==> IsSpace(b[i])
    requires t != [] && !IsSpace(t[|t| - 1])
    ensures StripRight(t + b) == t
    decreases |b|
  {
    if b != [] {
      assert (t + b)[..|t + b| - 1] == t + b[..|b| - 1];
      StripRightPadding(t, b[..|b| - 1]);
    } else {
      assert t + b == t;
    }
  }

  /** Digits with single underscores between them, as `int()` and
      `float()` accept them: `1_000`, but not `_1`, `1_` or `1__0`. */
  predicate DigitGroups(s: string) {
    && |s| > 0 && IsDigit(s[0]) && IsDigit(s[|s| - 1])
    && (forall i :: 0 <= i < |s| ==> IsDigit(s[i]) || s[i] == '_')
    && (forall i :: 0 <= i < |s| - 1 && s[i] == '_' ==> IsDigit(s[i + 1]))
  }

  /** The digits of `s` with its underscores dropped. */
  function Unseparated(s: string): (r: string)
    requires forall i :: 0 <= i < |s| ==> IsDigit(s[i]) || s[i] == '_'
    ensures forall i :: 0 <= i < |r| ==> IsDigit(r[i])
    ensures (forall i :: 0 <= i < |s| ==> IsDigit(s[i])) ==> r == s
  {
    if s == [] then [] else (if s[0] == '_' then [] else [s[0]]) + Unseparated(s[1..])
  }

  /** The value of a run of digit groups. */
  function ParseDigits(s: string): (r: Option<nat>)
    ensures r.Some? <==> DigitGroups(s)
  {
    if DigitGroups(s) then Some(DigitsValue(Unseparated(s))) else None
  }

  /** A leading `-` or `+` and the text after it. */
  function SplitSign(t: string): (bool, string) {
    if |t| > 0 && t[0] == '-' then (true, t[1..])
    else if |t| > 0 && t[0] == '+' then (false, t[1..])
    else (false, t)
  }

  /** Decimal integer text as `int()` reads it once stripped: an optional
      sign, then digit groups. */
  function ParseInt(t: string): (r: Option<int>)
    ensures r.Some? <==> DigitGroups(SplitSign(t).1)
  {
    var (negative, u) := SplitSign(t);
    match ParseDigits(u)
    case Some(n) => Some(if negative then -(n as int) else n as int)
    case None => None
  }

  /** The index of the first character of `s` in `cs`, or `|s|`. */
  function Find(s: string, cs: set<char>): (r: nat)
    ensures r <= |s|
    ensures forall i :: 0 <= i < r ==> s[i] !in cs
    ensures r < |s| ==> s[r] in cs
  {
    if s == [] || s[0] in cs then 0 else 1 + Find(s[1..], cs)
  }

  function Pow10(n: nat): (r: nat)
    ensures r > 0
  {
    if n == 0 then 1 else 10 * Pow10(n - 1)
  }

  /** `x` times ten to the power `e`. */
  function Scale10(x: real, e: int): real {
    if e >= 0 then x * Pow10(e) as real else x / Pow10(-e) as real
  }

  /** The value of digit groups that may be empty. */
  function DigitsOrZero(s: string): nat
    requires s == [] || DigitGroups(s)
  {
    if s == [] then 0 else DigitsValue(Unseparated(s))
  }

  /** A mantissa: digit groups, optionally with a `.` and further digit
      groups, where either side of the point may be empty but not both. */
  function ParseMantissa(m: string): (r: Option<real>) {
    var d := Find(m, {'.'});
    if d == |m| then
      match ParseDigits(m)
      case Some(n) => Some(n as real)
      case None => None
    else
      var whole, fraction := m[..d], m[d + 1..];
      if (whole == [] && fraction == []) || (whole != [] && !DigitGroups(whole))
         || (fraction != [] && !DigitGroups(fraction)) then None
      else Some(DigitsOrZero(whole) as real
                + DigitsOrZero(fraction) as real / Pow10(|Unseparated(fraction)|) as real)
  }

  /** Decimal float text as `float()` reads it once stripped: an optional
      sign, a mantissa, and an optional exponent `e` or `E` followed by
      integer text. */
  function ParseFloat(t: string): (r: Option<real>) {
    var (negative, u) := SplitSign(t);
    var e := Find(u, {'e', 'E'});
    var mantissa := ParseMantissa(u[..e]);
    var exponent := if e == |u| then Some(0) else ParseInt(u[e + 1..]);
    if mantissa.None? || exponent.None? then None
    else
      var x := Scale10(mantissa.value, exponent.value);
      Some(if negative then -x else x)
  }

  /** Python's `int(v)`: booleans and numbers convert, a float is truncated
      toward zero, a string converts when it is decimal integer text
      (whitespace around it allowed) and raises ValueError otherwise, and
      anything else raises TypeError. */
  function IntOf(v: PyValue): (r: Result<int, PyError>)
    ensures r.Ok? <==> (v.PyBool? || v.PyInt? || v.PyFloat? || (v.PyStr? && ParseInt(Strip(v.s)).Some?))
    ensures v.PyInt? ==> r == Ok(v.i)
    ensures v.PyBool? ==> r == Ok(if v.b then 1 else 0)
    ensures v.PyFloat? && r.Ok? ==> Trunc(v.r) == r.value
    ensures v.PyStr? && r.Ok? ==> r.value == ParseInt(Strip(v.s)).value
    ensures r.Err? ==> if v.PyStr? then r.error.ValueError? else r.error.TypeError?
  {
    match v
    case PyBool(b) => Ok(if b then 1 else 0)
    case PyInt(i) => Ok(i)
    case PyFloat(x) => Ok(Trunc(x))
    case PyStr(s) =>
      (match ParseInt(Strip(s))
       case Some(i) => Ok(i)
       case None => Err(ValueError("invalid literal for int() with base 10")))
    case _ => Err(TypeError("int() argument must be a string or a real number"))
  }

  /** Python's `float(v)`: booleans and numbers convert exactly (the model's
      floats are reals), a string converts when it is decimal float text
      (whitespace around it allowed) and raises ValueError otherwise, and
      anything else raises TypeError. */
  function FloatOf(v: PyValue): (r: Result<real, PyError>)
    ensures r.Ok? <==> (v.PyBool? || v.PyInt? || v.PyFloat? || (v.PyStr? && ParseFloat(Strip(v.s)).Some?))
    ensures v.PyInt? ==> r == Ok(v.i as real)
    ensures v.PyFloat? ==> r == Ok(v.r)
    ensures v.PyStr? && r.Ok? ==> r.value == ParseFloat(Strip(v.s)).value
    ensures r.Err? ==> if v.PyStr? then r.error.ValueError? else r.error.TypeError?
  {
    match v
    case PyBool(b) => Ok(if b then 1.0 else 0.0)
    case PyInt(i) => Ok(i as real)
    case PyFloat(x) => Ok(x)
    case PyStr(s) =>
      (match ParseFloat(Strip(s))
       case Some(x) => Ok(x)
       case None => Err(ValueError("could not convert string to float")))
    case _ => Err(TypeError("float() argument must be a string or a real number"))
  }

  /** The decimal text of a number is digit groups. */
  lemma NatTextIsDigitGroups(n: nat)
    ensures DigitGroups(NatToString(n))
    ensures ParseDigits(NatToString(n)) == Some(n)
  {
    DigitsValueOfNatToString(n);
  }

  /** `int(str(i)) == i`, also with whitespace around the text. */
  lemma IntOfIntText(i: int, a: string, b: string)
    requires forall k :: 0 <= k < |a| ==> IsSpace(a[k])
    requires forall k :: 0 <= k < |b| ==> IsSpace(b[k])
    ensures IntOf(PyStr(a + IntToString(i) + b)) == Ok(i)
  {
    var t := IntToString(i);
    StripPadded(a, t, b);
    IntTextParses(i);
  }

  lemma IntTextParses(i: int)
    ensures ParseInt(IntToString(i)) == Some(i)
  {
    var negative, u := IntTextParts(i);
  }

  /** The sign and the digits of the decimal text of `i`. */
  lemma IntTextParts(i: int) returns (negative: bool, u: string)
    ensures SplitSign(IntToString(i)) == (negative, u)
    ensures negative <==> i < 0
    ensures DigitGroups(u) && forall k :: 0 <= k < |u| ==> IsDigit(u[k])
    ensures i as real == if negative then -(DigitsValue(u) as real) else DigitsValue(u) as real
    ensures ParseDigits(u) == Some(if negative then -i else i)
    ensures IsDigit(IntToString(i)[|IntToString(i)| - 1])
  {
    negative := i < 0;
    var n: nat := if negative then -i else i;
    u := NatToString(n);
    NatTextIsDigitGroups(n);
    DigitsValueOfNatToString(n);
  }

  /** `float(str(i)) == i`, also with whitespace around the text. */
  lemma FloatOfIntText(i: int, a: string, b: string)
    requires forall k :: 0 <= k < |a| ==> IsSpace(a[k])
    requires forall k :: 0 <= k < |b| ==> IsSpace(b[k])
    ensures FloatOf(PyStr(a + IntToString(i) + b)) == Ok(i as real)
  {
    StripPadded(a, IntToString(i), b);
    FloatTextParses(i);
  }

  lemma FloatTextParses(i: int)
    ensures ParseFloat(IntToString(i)) == Some(i as real)
  {
    var negative, u := IntTextParts(i);
    UnsignedFloatText(IntToString(i), negative, u, i as real);
  }

  /** Signed plain digits read as a float give their value. */
  lemma UnsignedFloatText(t: string, negative: bool, u: string, x: real)
    requires SplitSign(t) == (negative, u)
    requires DigitGroups(u) && forall k :: 0 <= k < |u| ==> IsDigit(u[k])
    requires x == if negative then -(DigitsValue(u) as real) else DigitsValue(u) as real
    ensures ParseFloat(t) == Some(x)
  {
    MantissaOfDigits(u);
    assert u[..|u|] == u;
    assert Scale10(DigitsValue(u) as real, 0) == DigitsValue(u) as real;
  }

  /** Plain digits have no point and no exponent mark, and read as their value. */
  lemma MantissaOfDigits(u: string)
    requires DigitGroups(u) && forall k :: 0 <= k < |u| ==> IsDigit(u[k])
    ensures Find(u, {'e', 'E'}) == |u|
    ensures ParseMantissa(u) == Some(DigitsValue(u) as real)
  {
    assert Find(u, {'.'}) == |u|;
  }

  /** Text `int()` rejects raises ValueError: a fraction, a letter, a
      doubled separator, a sign alone. */
  lemma IntOfRejects()
    ensures IntOf(PyStr("1.5")) == Err(ValueError("invalid literal for int() with base 10"))
    ensures IntOf(PyStr("x")).Err? && IntOf(PyStr("1__0")).Err?
  {
    StripPadded("", "1.5", "");
    assert !DigitGroups("1.5") by { assert "1.5"[1] == '.'; }
    StripPadded("", "x", "");
    assert !DigitGroups("x") by { assert "x"[0] == 'x'; }
    StripPadded("", "1__0", "");
    assert !DigitGroups("1__0") by { assert "1__0"[1] == '_' && "1__0"[2] == '_'; }
  }

  /** `ParseFloat` from its parts: the sign, the exponent mark's place,
      the mantissa's value and the exponent's. */
  lemma FloatTextParts(t: string, negative: bool, u: string, e: nat, m: real, x: int, v: real)
    requires SplitSign(t) == (negative, u)
    requires e <= |u| && Find(u, {'e', 'E'}) == e
    requires ParseMantissa(u[..e]) == Some(m)
    requires (if e == |u| then Some(0) else ParseInt(u[e + 1..])) == Some(x)
    requires v == if negative then -Scale10(m, x) else Scale10(m, x)
    ensures ParseFloat(t) == Some(v)
  {
  }

  lemma FloatOfText(s: string, t: string, x: real)
    requires Strip(s) == t && ParseFloat(t) == Some(x)
    ensures FloatOf(PyStr(s)) == Ok(x)
  {
  }

  /** Float text with whitespace around it and a point. */
  lemma FloatOfPointText()
    ensures FloatOf(PyStr(" 1.5\n")) == Ok(1.5)
  {
    StripPadded(" ", "1.5", "\n");
    assert " " + "1.5" + "\n" == " 1.5\n";
    assert Find("1.5", {'e', 'E'}) == 3 by {
      assert Find("1.5"[1..], {'e', 'E'}) == 2 by {
        assert "1.5"[1..][1..] == "5";
        assert "5"[1..] == "";
      }
    }
    assert "1.5"[..3] == "1.5";
    assert Find("1.5", {'.'}) == 1 by {
      assert "1.5"[1..][0] == '.';
    }
    assert "1.5"[..1] == "1" && "1.5"[2..] == "5";
    assert DigitsValue("1") == 1 && DigitsValue("5") == 5 by {
      assert "1"[..0] == [] && "5"[..0] == [];
    }
    assert Unseparated("5") == "5";
    assert ParseMantissa("1.5") == Some(1.5);
    assert SplitSign("1.5") == (false, "1.5");
    assert Scale10(1.5, 0) == 1.5;
    FloatTextParts("1.5", false, "1.5", 3, 1.5, 0, 1.5);
    FloatOfText(" 1.5\n", "1.5", 1.5);
  }

  /** `Find` for anything but digits passes over a prefix of digits. */
  lemma {:induction false} FindPast(a: string, b: string, cs: set<char>)
    requires forall k :: 0 <= k < |a| ==> IsDigit(a[k])
    requires forall c :: c in cs ==> !IsDigit(c)
    ensures Find(a + b, cs) == |a| + Find(b, cs)
    decreases |a|
  {
    if a != [] {
      assert (a + b)[1..] == a[1..] + b;
      FindPast(a[1..], b, cs);
    } else {
      assert a + b == b;
    }
  }

  /** `float(f'{m}e{e}')` is `m` times ten to the power `e`. */
  lemma FloatOfScientificText(m: nat, e: int)
    ensures FloatOf(PyStr(NatToString(m) + "e" + IntToString(e))) == Ok(Scale10(m as real, e))
  {
    var negative, digits := IntTextParts(e);
    IntTextParses(e);
    DigitsValueOfNatToString(m);
    ScientificText(NatToString(m), IntToString(e), e);
  }

  lemma ScientificText(a: string, b: string, e: int)
    requires a != [] && forall k :: 0 <= k < |a| ==> IsDigit(a[k])
    requires b != [] && IsDigit(b[|b| - 1]) && ParseInt(b) == Some(e)
    ensures FloatOf(PyStr(a + "e" + b)) == Ok(Scale10(DigitsValue(a) as real, e))
  {
    var t := a + "e" + b;
    ScientificShape(a, b, t);
    MantissaOfDigits(a);
    var x := Scale10(DigitsValue(a) as real, e);
    FloatTextParts(t, false, t, |a|, DigitsValue(a) as real, e, x);
    FloatOfText(t, t, x);
  }

  /** Where the parts of `a + "e" + b` sit, for digits `a`. */
  lemma ScientificShape(a: string, b: string, t: string)
    requires a != [] && forall k :: 0 <= k < |a| ==> IsDigit(a[k])
    requires b != [] && IsDigit(b[|b| - 1])
    requires t == a + "e" + b
    ensures Strip(t) == t && SplitSign(t) == (false, t)
    ensures Find(t, {'e', 'E'}) == |a| && t[..|a|] == a && t[|a| + 1..] == b
  {
    assert t[..|a|] == a && t[|a|] == 'e' && t[|a| + 1..] == b;
    assert a + t[|a|..] == t;
    FindPast(a, t[|a|..], {'e', 'E'});
    assert IsDigit(t[0]) && IsDigit(t[|t| - 1]);
    StripBare(t);
  }




  /** Text `float()` rejects raises ValueError: a point alone, an exponent
      without digits, a letter. */
  lemma FloatOfRejects()
    ensures FloatOf(PyStr(".")) == Err(ValueError("could not convert string to float"))
    ensures FloatOf(PyStr("1e")).Err?
  {
    StripBare(".");
    assert SplitSign(".") == (false, ".");
    assert Find(".", {'e', 'E'}) == 1 by { assert "."[1..] == ""; }
    assert "."[..1] == ".";
    assert Find(".", {'.'}) == 0;
    assert "."[..0] == [] && "."[1..] == [];
    assert ParseMantissa(".") == None;
    StripBare("1e");
    assert SplitSign("1e") == (false, "1e");
    assert Find("1e", {'e', 'E'}) == 1 by { assert "1e"[1..][0] == 'e'; }
    assert "1e"[2..] == [];
    assert ParseInt([]) == None;
  }


  /** The dimensions the tensor constructors infer from nested lists of
      numbers: none for a number, and for a list its length followed by
      the dimensions all its items share. `None` for anything else: `None`,
      a string, a tensor, or a ragged list. */
  function Dims(v: PyValue): (r: Option<seq<nat>>)
    ensures (v.PyBool? || v.PyInt? || v.PyFloat?) <==> r == Some([])
    ensures r.Some? && !(v.PyBool? || v.PyInt? || v.PyFloat?) ==>
              v.PyList? && |r.value| >= 1 && r.value[0] == |v.items|
    decreases v
  {
    match v
    case PyBool(_) => Some([])
    case PyInt(_) => Some([])
    case PyFloat(_) => Some([])
    case PyList(items) =>
      if items == [] then Some([0])
      else
        (match Dims(items[0])
         case None => None
         case Some(d) =>
           if forall i :: 0 <= i < |items| ==> Dims(items[i]) == Some(d) then Some([|items|] + d) else None)
    case _ => None
  }

  /** A list of `n` rows, each a list of `k` numbers, has dimensions
      `[n, k]`, as a batch of latent vectors does. */
  lemma {:induction false} MatrixDims(rows: seq<PyValue>, k: nat)
    requires rows != []
    requires forall i :: 0 <= i < |rows| ==> rows[i].PyList? && |rows[i].items| == k
    requires forall i, j :: 0 <= i < |rows| && 0 <= j < k ==>
               rows[i].items[j].PyFloat? || rows[i].items[j].PyInt?
    ensures Dims(PyList(rows)) == Some([|rows|, k])
  {
    forall i | 0 <= i < |rows|
      ensures Dims(rows[i]) == Some([k])
    {
      RowDims(rows[i].items, k);
    }
    assert [|rows|] + [k] == [|rows|, k];
  }

  lemma RowDims(items: seq<PyValue>, k: nat)
    requires |items| == k
    requires forall j :: 0 <= j < k ==> items[j].PyFloat? || items[j].PyInt?
    ensures Dims(PyList(items)) == Some([k])
  {
    if items != [] {
      assert Dims(items[0]) == Some([]);
      assert forall j :: 0 <= j < |items| ==> Dims(items[j]) == Some([]);
      assert [|items|] + [] == [k];
    }
  }

  /** Rows of different lengths have no dimensions. */
  lemma RaggedDims()
    ensures Dims(PyList([PyList([PyInt(1), PyInt(2)]), PyList([PyInt(3)])])) == None
  {
    var r0, r1 := PyList([PyInt(1), PyInt(2)]), PyList([PyInt(3)]);
    RowDims(r0.items, 2);
    RowDims(r1.items, 1);
    assert Dims(PyList([r0, r1])) == None by {
      assert [r0, r1][1] == r1;
    }
  }

  /** `torch.Tensor(v)`, the legacy constructor: nested lists of numbers
      build a tensor holding them, a tensor is returned as it is, and an
      int `n` builds an uninitialised tensor of `n` elements (a negative
      one raises RuntimeError). Anything else raises TypeError; a ragged
      list raises ValueError. */
  function TensorOf(v: PyValue): (r: Result<PyValue, PyError>)
    ensures r.Ok? <==> (v.PyList? && Dims(v).Some?) || v.PyTensor? || (v.PyInt? && v.i >= 0)
    ensures r.Ok? ==> r.value == if v.PyTensor? then v else PyTensor(v)
    ensures r.Err? ==> if v.PyInt? then r.error.RuntimeError?
                       else if v.PyList? then r.error.ValueError?
                       else r.error.TypeError?
  {
    match v
    case PyList(_) => if Dims(v).Some? then Ok(PyTensor(v)) else Err(ValueError("expected sequences of equal length"))
    case PyTensor(_) => Ok(v)
    case PyInt(n) => if n >= 0 then Ok(PyTensor(v)) else Err(RuntimeError("Trying to create tensor with negative dimension"))
    case _ => Err(TypeError("new(): data must be a sequence"))
  }

  /** `torch.tensor(v)`: a number or nested lists of numbers build a
      tensor, and a tensor is copied. `None` raises RuntimeError (there is
      no dtype to infer), a string TypeError, a ragged list ValueError. */
  function NewTensorOf(v: PyValue): (r: Result<PyValue, PyError>)
    ensures r.Ok? <==> Dims(v).Some? || v.PyTensor?
    ensures r.Ok? ==> r.value == if v.PyTensor? then v else PyTensor(v)
    ensures r.Err? ==> if v.PyNone? then r.error.RuntimeError?
                       else if v.PyList? then r.error.ValueError?
                       else r.error.TypeError?
  {
    match v
    case PyTensor(_) => Ok(v)
    case PyNone => Err(RuntimeError("Could not infer dtype of NoneType"))
    case PyStr(_) => Err(TypeError("new(): invalid data type 'str'"))
    case _ => if Dims(v).Some? then Ok(PyTensor(v)) else Err(ValueError("expected sequences of equal length"))
  }
}
