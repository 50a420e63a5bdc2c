/** Text handling of the QC utilities: Python's str.split, int() and float() on the
    decimal forms they accept, parse_tuple, and the line cleaning and token extraction
    of load_horizon. */
module QcText {
  import opened Wrappers
  import ArrayOps

  type String = seq<char>

  datatype TextError =
    | WrongInputFormat(arg: String)   // parse_tuple's ValueError: fewer than two parts
    | InvalidLiteral(token: String)   // ValueError of int() or float()
    | MissingToken                    // IndexError of line[1]

  // ---------------------------------------------------------------------------
  // Characters

  /** The characters str.strip() and int() treat as whitespace, up to U+00A0. */
  predicate IsSpace(c: char)
  {
    c == ' ' || ('\t' <= c <= '\r') || ('\U{1c}' <= c <= '\U{1f}') || c == '\U{85}' || c == '\U{a0}'
  }

  predicate IsDigit(c: char)
  {
    '0' <= c <= '9'
  }

  /** The character class [a-zA-Z:] of load_horizon's first substitution. */
  predicate IsLetterOrColon(c: char)
  {
    ('a' <= c <= 'z') || ('A' <= c <= 'Z') || c == ':'
  }

  function DigitValue(c: char): nat
    requires IsDigit(c)
  {
    (c as int) - ('0' as int)
  }

  function DigitChar(d: nat): (c: char)
    requires d < 10
    ensures IsDigit(c) && DigitValue(c) == d
  {
    (('0' as int) + d) as char
  }

  // ---------------------------------------------------------------------------
  // str.split(sep) and its inverse sep.join(parts)

  /** str.split(sep): the pieces between the occurrences of sep; never empty. */
  function Split(s: String, sep: char): (parts: seq<String>)
    ensures |parts| >= 1
    ensures forall i :: 0 <= i < |parts| ==> sep !in parts[i]
  {
    if |s| == 0 then [[]]
    else if s[0] == sep then [[]] + Split(s[1..], sep)
    else
      var rest := Split(s[1..], sep);
      [[s[0]] + rest[0]] + rest[1..]
  }

  /** sep.join(parts). */
  function Join(parts: seq<String>, sep: char): String
    requires |parts| >= 1
  {
    if |parts| == 1 then parts[0] else parts[0] + [sep] + Join(parts[1..], sep)
  }

  /** Splitting and joining again gives back the string. */
  lemma {:induction false} JoinSplit(s: String, sep: char)
    ensures Join(Split(s, sep), sep) == s
  {
    if |s| > 0 {
      JoinSplit(s[1..], sep);
      var rest := Split(s[1..], sep);
      if s[0] != sep {
        var parts := Split(s, sep);
        assert parts[1..] == rest[1..];
        if |rest| > 1 {
          assert Join(parts, sep) == [s[0]] + rest[0] + [sep] + Join(rest[1..], sep);
        }
        assert Join(parts, sep) == [s[0]] + Join(rest, sep);
      }
    }
  }

  /** Joining pieces free of sep and splitting again gives back the pieces. */
  lemma {:induction false} SplitJoin(parts: seq<String>, sep: char)
    requires |parts| >= 1
    requires forall i :: 0 <= i < |parts| ==> sep !in parts[i]
    ensures Split(Join(parts, sep), sep) == parts
  {
    if |parts| == 1 {
      SplitNoSeparator(parts[0], sep);
    } else {
      SplitJoin(parts[1..], sep);
      SplitAfterPiece(parts[0], Join(parts[1..], sep), sep);
      assert [parts[0]] + parts[1..] == parts;
    }
  }

  lemma {:induction false} SplitNoSeparator(p: String, sep: char)
    requires sep !in p
    ensures Split(p, sep) == [p]
  {
    if |p| > 0 {
      SplitNoSeparator(p[1..], sep);
      assert [p[0]] + p[1..] == p;
    }
  }

  lemma {:induction false} SplitAfterPiece(p: String, rest: String, sep: char)
    requires sep !in p
    ensures Split(p + [sep] + rest, sep) == [p] + Split(rest, sep)
  {
    var s := p + [sep] + rest;
    if |p| == 0 {
      assert s == [sep] + rest;
      assert s[1..] == rest;
    } else {
      SplitAfterPiece(p[1..], rest, sep);
      assert s[1..] == p[1..] + [sep] + rest;
      assert [p[0]] + p[1..] == p;
    }
  }

  /** The number of pieces is one more than the number of separators. */
  function Occurrences(s: String, c: char): nat
  {
    if |s| == 0 then 0 else (if s[0] == c then 1 else 0) + Occurrences(s[1..], c)
  }

  lemma {:induction false} SplitCount(s: String, sep: char)
    ensures |Split(s, sep)| == Occurrences(s, sep) + 1
    ensures Occurrences(s, sep) == 0 <==> sep !in s
  {
    if |s| > 0 {
      SplitCount(s[1..], sep);
      assert sep in s <==> s[0] == sep || sep in s[1..];
    }
  }

  // ---------------------------------------------------------------------------
  // str.strip() and re.sub(' +', ' ', ...)

  /** Index of the first non-whitespace character of s at or after i, or |s|. */
  function SkipSpaces(s: String, i: nat): (j: nat)
    requires i <= |s|
    ensures i <= j <= |s|
    ensures forall k :: i <= k < j ==> IsSpace(s[k])
    ensures j < |s| ==> !IsSpace(s[j])
    decreases |s| - i
  {
    if i < |s| && IsSpace(s[i]) then SkipSpaces(s, i + 1) else i
  }

  /** End of s[lo..hi] once its trailing whitespace is dropped. */
  function TrimEnd(s: String, lo: nat, hi: nat): (j: nat)
    requires lo <= hi <= |s|
    ensures lo <= j <= hi
    ensures forall k :: j <= k < hi ==> IsSpace(s[k])
    ensures j > lo ==> !IsSpace(s[j - 1])
  {
    if hi > lo && IsSpace(s[hi - 1]) then TrimEnd(s, lo, hi - 1) else hi
  }

  /** str.strip(): the string without its leading and trailing whitespace. */
  function Strip(s: String): (r: String)
    ensures |r| > 0 ==> !IsSpace(r[0]) && !IsSpace(r[|r| - 1])
  {
    var lo := SkipSpaces(s, 0);
    s[lo..TrimEnd(s, lo, |s|)]
  }

  /** Stripping only removes whitespace from the ends: what is left is the piece of s
      between a whitespace prefix and a whitespace suffix, and nothing is left exactly
      when s is all whitespace. */
  lemma {:induction false} StripPiece(s: String) returns (i: nat)
    ensures i + |Strip(s)| <= |s| && Strip(s) == s[i..i + |Strip(s)|]
    ensures forall k :: 0 <= k < i ==> IsSpace(s[k])
    ensures forall k :: i + |Strip(s)| <= k < |s| ==> IsSpace(s[k])
    ensures |Strip(s)| == 0 <==> forall k :: 0 <= k < |s| ==> IsSpace(s[k])
  {
    i := SkipSpaces(s, 0);
  }

  lemma {:induction false} StripUnchanged(s: String)
    requires |s| > 0 ==> !IsSpace(s[0]) && !IsSpace(s[|s| - 1])
    ensures Strip(s) == s
  {
  }

  /** No two neighbouring characters are both spaces. */
  predicate NoDoubleSpace(s: String)
  {
    forall i, j :: 0 <= i < |s| && 0 <= j < |s| && j == i + 1 ==> !(s[i] == ' ' && s[j] == ' ')
  }

  /** re.sub(' +', ' ', s): every run of spaces becomes a single space. */
  function Collapse(s: String): (r: String)
    ensures |r| <= |s|
    ensures |s| > 0 ==> |r| > 0 && r[0] == s[0] && r[|r| - 1] == s[|s| - 1]
    ensures NoDoubleSpace(r)
  {
    if |s| <= 1 then s
    else if s[0] == ' ' && s[1] == ' ' then Collapse(s[1..])
    else [s[0]] + Collapse(s[1..])
  }

  /** Collapsing introduces no new character. */
  lemma {:induction false} CollapseKeepsClass(s: String)
    requires forall k :: 0 <= k < |s| ==> !IsLetterOrColon(s[k])
    ensures forall k :: 0 <= k < |Collapse(s)| ==> !IsLetterOrColon(Collapse(s)[k])
  {
    if |s| > 1 {
      CollapseKeepsClass(s[1..]);
    }
  }

  /** A character other than a space splits the collapsing: the text before it and the
      text after it are collapsed on their own. */
  lemma {:induction false} CollapseAroundChar(a: String, c: char, b: String)
    requires c != ' '
    ensures Collapse(a + [c] + b) == Collapse(a) + [c] + Collapse(b)
    decreases |a|
  {
    if |a| == 0 {
      AroundParts(a, c, b);
      CollapseAfterChar(c, b);
    } else {
      var tail, cb := Collapse(a[1..]), Collapse(b);
      CollapseAroundChar(a[1..], c, b);
      AroundParts(a, c, b);
      var s := a + [c] + b;
      if |a| > 1 && a[0] == ' ' && a[1] == ' ' {
        CollapseStep(s);
        CollapseStep(a);
      } else {
        CollapseStep(s);
        if |a| > 1 {
          CollapseStep(a);
        }
        Regroup(a[0], tail, c, cb);
      }
    }
  }

  /** One step of the collapsing, for a string of two or more characters. */
  lemma CollapseStep(s: String)
    requires |s| >= 2
    ensures s[0] == ' ' && s[1] == ' ' ==> Collapse(s) == Collapse(s[1..])
    ensures !(s[0] == ' ' && s[1] == ' ') ==> Collapse(s) == [s[0]] + Collapse(s[1..])
  {
  }

  /** A leading character other than a space is kept, and the rest collapses on its own. */
  lemma CollapseAfterChar(c: char, b: String)
    requires c != ' '
    ensures Collapse([c] + b) == [c] + Collapse(b)
  {
    if |b| > 0 {
      assert ([c] + b)[1..] == b;
    } else {
      assert [c] + b == [c];
    }
  }

  lemma Regroup<T>(x: T, t: seq<T>, c: T, u: seq<T>)
    ensures [x] + (t + [c] + u) == ([x] + t) + [c] + u
  {
  }

  /** The first two characters and the tail of a + [c] + b. */
  lemma AroundParts<T>(a: seq<T>, c: T, b: seq<T>)
    ensures |a| == 0 ==> a + [c] + b == [c] + b && (a + [c] + b)[0] == c && (a + [c] + b)[1..] == b
    ensures |a| == 0 && |b| == 0 ==> a + [c] + b == [c]
    ensures |a| > 0 ==> (a + [c] + b)[0] == a[0] && (a + [c] + b)[1..] == a[1..] + [c] + b
    ensures |a| == 1 ==> (a + [c] + b)[1] == c && a == [a[0]]
    ensures |a| > 1 ==> (a + [c] + b)[1] == a[1]
  {
  }

  /** A run of one or more spaces collapses to a single space. */
  lemma {:induction false} CollapseSpaces(s: String)
    requires |s| > 0 && forall k :: 0 <= k < |s| ==> s[k] == ' '
    ensures Collapse(s) == " "
  {
    if |s| > 1 {
      CollapseSpaces(s[1..]);
    } else {
      assert s == [s[0]];
    }
  }

  lemma {:induction false} CollapseUnchanged(s: String)
    requires NoDoubleSpace(s)
    ensures Collapse(s) == s
  {
    if |s| > 1 {
      CollapseUnchanged(s[1..]);
      assert [s[0]] + s[1..] == s;
    }
  }

  // ---------------------------------------------------------------------------
  // int() and float() on decimal literals

  /** The number a string of decimal digits spells. */
  function DigitsValue(ds: String): nat
    requires forall k :: 0 <= k < |ds| ==> IsDigit(ds[k])
  {
    if |ds| == 0 then 0 else DigitsValue(ds[..|ds| - 1]) * 10 + DigitValue(ds[|ds| - 1])
  }

  predicate AllDigits(ds: String)
  {
    forall k :: 0 <= k < |ds| ==> IsDigit(ds[k])
  }

  /** int(token): optional surrounding whitespace, an optional sign, one or more digits. */
  function ParseInt(token: String): (r: Result<int, TextError>)
    ensures r.Failure? ==> r.error == InvalidLiteral(token)
  {
    var t := Strip(token);
    var ds := Unsigned(t);
    if |ds| > 0 && AllDigits(ds) then
      Success(if Negative(t) then -(DigitsValue(ds) as int) else DigitsValue(ds) as int)
    else
      Failure(InvalidLiteral(token))
  }

  /** Whether a stripped literal starts with a minus sign. */
  predicate Negative(t: String)
  {
    |t| > 0 && t[0] == '-'
  }

  /** A stripped literal without its sign. */
  function Unsigned(t: String): String
  {
    if |t| > 0 && (t[0] == '-' || t[0] == '+') then t[1..] else t
  }

  /** str(n) for a natural number. */
  function NatToString(n: nat): (s: String)
    ensures |s| > 0 && AllDigits(s)
    ensures DigitsValue(s) == n
  {
    if n < 10 then [DigitChar(n)]
    else
      var p := NatToString(n / 10);
      var s := p + [DigitChar(n % 10)];
      assert s[..|s| - 1] == p;
      s
  }

  /** str(x) for an integer. */
  function IntToString(x: int): (s: String)
    ensures IntegerText(s)
  {
    if x < 0 then "-" + NatToString(-x) else NatToString(x)
  }

  /** int(str(x)) == x. */
  lemma {:induction false} IntRoundTrip(x: int)
    ensures ParseInt(IntToString(x)) == Success(x)
  {
    if x < 0 {
      ParseSignedDigits(NatToString(-x));
      assert IntToString(x) == "-" + NatToString(-x);
    } else {
      ParseDigits(NatToString(x));
    }
  }

  lemma {:induction false} ParseDigits(ds: String)
    requires |ds| > 0 && AllDigits(ds)
    ensures ParseInt(ds) == Success(DigitsValue(ds) as int)
  {
    StripUnchanged(ds);
    assert Unsigned(ds) == ds && !Negative(ds);
  }

  lemma {:induction false} ParseSignedDigits(ds: String)
    requires |ds| > 0 && AllDigits(ds)
    ensures ParseInt("-" + ds) == Success(-(DigitsValue(ds) as int))
  {
    var t := "-" + ds;
    StripUnchanged(t);
    assert t[1..] == ds;
    assert Unsigned(t) == ds && Negative(t);
  }

  /** 10 to the power n. */
  function Pow10(n: nat): (p: nat)
    ensures p >= 1
  {
    if n == 0 then 1 else 10 * Pow10(n - 1)
  }

  /** Position of the first '.' in s, or |s| when there is none. */
  function DotIndex(s: String): (i: nat)
    ensures i <= |s|
    ensures '.' !in s[..i]
    ensures i < |s| ==> s[i] == '.'
  {
    if |s| == 0 then 0
    else if s[0] == '.' then 0
    else
      var i := DotIndex(s[1..]) + 1;
      assert s[..i] == [s[0]] + s[1..][..i - 1];
      i
  }

  /** The value of the decimal digits whole.frac. */
  function DecimalValue(whole: String, frac: String): real
    requires AllDigits(whole) && AllDigits(frac)
  {
    (DigitsValue(whole) as real) + (DigitsValue(frac) as real) / (Pow10(|frac|) as real)
  }

  /** float(token) on a decimal literal without exponent: optional whitespace and sign,
      then digits with at most one '.', at least one digit in all. */
  function ParseFloat(token: String): (r: Result<real, TextError>)
    ensures r.Failure? ==> r.error == InvalidLiteral(token)
  {
    var t := Strip(token);
    var v := UnsignedDecimal(Unsigned(t));
    if v.Some? then Success(if Negative(t) then -v.value else v.value)
    else Failure(InvalidLiteral(token))
  }

  /** Digits with at most one '.', at least one digit in all. */
  function UnsignedDecimal(body: String): Option<real>
  {
    var dot := DotIndex(body);
    var whole := body[..dot];
    var frac := if dot < |body| then body[dot + 1..] else [];
    if |whole| + |frac| > 0 && AllDigits(whole) && AllDigits(frac) then Some(DecimalValue(whole, frac))
    else None
  }

  /** float(str(x)) == x for an integer x. */
  lemma {:induction false} FloatOfIntString(x: int)
    ensures ParseFloat(IntToString(x)) == Success(x as real)
  {
    if x < 0 {
      FloatOfSignedDigits(NatToString(-x));
      assert IntToString(x) == "-" + NatToString(-x);
    } else {
      FloatOfDigits(NatToString(x));
    }
  }

  lemma {:induction false} FloatOfDigits(ds: String)
    requires |ds| > 0 && AllDigits(ds)
    ensures ParseFloat(ds) == Success(DigitsValue(ds) as real)
  {
    StripUnchanged(ds);
    assert Unsigned(ds) == ds && !Negative(ds);
    DecimalOfDigits(ds);
  }

  lemma {:induction false} FloatOfSignedDigits(ds: String)
    requires |ds| > 0 && AllDigits(ds)
    ensures ParseFloat("-" + ds) == Success(-(DigitsValue(ds) as real))
  {
    var t := "-" + ds;
    StripUnchanged(t);
    assert t[1..] == ds;
    assert Unsigned(t) == ds && Negative(t);
    var v := DigitsValue(ds) as real;
    DecimalOfDigits(ds);
    ParseFloatOfStripped(t, v);
    assert ParseFloat(t) == Success(-v);
    assert -v == -(DigitsValue(ds) as real);
    assert ParseFloat("-" + ds) == Success(-v);
  }

  lemma {:induction false} ParseFloatOfStripped(t: String, v: real)
    requires Strip(t) == t && UnsignedDecimal(Unsigned(t)) == Some(v)
    ensures ParseFloat(t) == Success(if Negative(t) then -v else v)
  {
    var s := Strip(t);
    assert UnsignedDecimal(Unsigned(s)) == Some(v) && Negative(s) == Negative(t);
  }

  lemma {:induction false} WholeNumber(ds: String)
    requires AllDigits(ds)
    ensures DecimalValue(ds, []) == DigitsValue(ds) as real
  {
    var frac: String := [];
    assert DigitsValue(frac) == 0 && Pow10(|frac|) == 1;
  }

  lemma {:induction false} DecimalOfDigits(ds: String)
    requires |ds| > 0 && AllDigits(ds)
    ensures UnsignedDecimal(ds) == Some(DigitsValue(ds) as real)
  {
    NoDot(ds);
    WholeNumber(ds);
  }

  lemma {:induction false} NoDot(ds: String)
    requires AllDigits(ds)
    ensures DotIndex(ds) == |ds| && ds[..DotIndex(ds)] == ds
  {
  }

  // ---------------------------------------------------------------------------
  // parse_tuple

  /** The values of a row of int() results, or the error of the first one that failed:
      a list comprehension stops at its first exception. */
  function Collect(rs: seq<Result<int, TextError>>): (r: Result<seq<int>, TextError>)
    ensures r.Success? ==> |r.value| == |rs|
    ensures r.Failure? ==> Failure(r.error) in rs
    ensures r.Failure? ==>
              exists k :: 0 <= k < |rs| && rs[k] == Failure(r.error) && forall j :: 0 <= j < k ==> rs[j].Success?
  {
    if |rs| == 0 then Success([])
    else if rs[0].Failure? then Failure(rs[0].error)
    else
      var rest := Collect(rs[1..]);
      if rest.Failure? then
        assert forall k :: 0 <= k < |rs| - 1 ==> rs[1..][k] == rs[k + 1];
        rest
      else Success([rs[0].value] + rest.value)
  }

  /** Collecting succeeds exactly when every result does, and then keeps their values in
      order. */
  lemma {:induction false} CollectMeaning(rs: seq<Result<int, TextError>>)
    ensures Collect(rs).Success? <==> forall i :: 0 <= i < |rs| ==> rs[i].Success?
    ensures Collect(rs).Success? ==> forall i :: 0 <= i < |rs| ==> rs[i] == Success(Collect(rs).value[i])
  {
    if |rs| > 0 {
      var rest := rs[1..];
      CollectMeaning(rest);
      assert forall i :: 1 <= i < |rs| ==> rs[i] == rest[i - 1];
    }
  }

  /** int() of each token, in order. */
  function IntResults(tokens: seq<String>): (rs: seq<Result<int, TextError>>)
    ensures |rs| == |tokens|
  {
    seq(|tokens|, i requires 0 <= i < |tokens| => ParseInt(tokens[i]))
  }

  /** [int(val) for val in tokens]: the first token int() rejects ends the parse. */
  function ParseInts(tokens: seq<String>): (r: Result<seq<int>, TextError>)
    ensures r.Success? ==> |r.value| == |tokens|
    ensures r.Failure? ==> r.error.InvalidLiteral?
    ensures r.Failure? ==>
              exists k :: 0 <= k < |tokens| && r.error == InvalidLiteral(tokens[k]) && ParseInt(tokens[k]).Failure? &&
                          forall j :: 0 <= j < k ==> ParseInt(tokens[j]).Success?
  {
    var rs := IntResults(tokens);
    assert forall k :: 0 <= k < |tokens| ==> rs[k] == ParseInt(tokens[k]);
    Collect(rs)
  }

  /** The parse succeeds exactly when every token is an integer literal, and then holds
      their values in order. */
  lemma ParseIntsMeaning(tokens: seq<String>)
    ensures ParseInts(tokens).Success? <==> forall i :: 0 <= i < |tokens| ==> ParseInt(tokens[i]).Success?
    ensures ParseInts(tokens).Success? ==>
              forall i :: 0 <= i < |tokens| ==> ParseInt(tokens[i]) == Success(ParseInts(tokens).value[i])
  {
    var rs := IntResults(tokens);
    CollectMeaning(rs);
    assert ParseInts(tokens) == Collect(rs);
    forall i | 0 <= i < |tokens|
      ensures ParseInt(tokens[i]) == rs[i]
    {
    }
  }

  /** parse_tuple: split at commas; fewer than two parts is a ValueError, otherwise every
      part must be an integer literal. */
  function ParseTuple(arg: String): (r: Result<seq<int>, TextError>)
    ensures r.Success? ==> |r.value| == |Split(arg, ',')| >= 2
    ensures r == Failure(WrongInputFormat(arg)) <==> ',' !in arg
  {
    var parts := Split(arg, ',');
    SplitCount(arg, ',');
    if |parts| < 2 then Failure(WrongInputFormat(arg))
    else
      assert ParseInts(parts) != Failure(WrongInputFormat(arg));
      ParseInts(parts)
  }

  /** The comma-separated form of a sequence of integers. */
  function TupleText(xs: seq<int>): String
    requires |xs| >= 1
  {
    Join(seq(|xs|, i requires 0 <= i < |xs| => IntToString(xs[i])), ',')
  }

  /** parse_tuple reads back any tuple of at least two integers written with commas. */
  lemma {:induction false} ParseTupleRoundTrip(xs: seq<int>)
    requires |xs| >= 2
    ensures ParseTuple(TupleText(xs)) == Success(xs)
  {
    var parts := seq(|xs|, i requires 0 <= i < |xs| => IntToString(xs[i]));
    SplitJoin(parts, ',');
    forall i | 0 <= i < |parts| ensures ParseInt(parts[i]) == Success(xs[i]) {
      IntRoundTrip(xs[i]);
    }
    ParseIntsAll(parts, xs);
  }

  lemma ParseIntsAll(tokens: seq<String>, xs: seq<int>)
    requires |tokens| == |xs|
    requires forall i :: 0 <= i < |tokens| ==> ParseInt(tokens[i]) == Success(xs[i])
    ensures ParseInts(tokens) == Success(xs)
  {
    ParseIntsMeaning(tokens);
    assert ParseInts(tokens).Success?;
    var vs := ParseInts(tokens).value;
    forall i | 0 <= i < |xs|
      ensures vs[i] == xs[i]
    {
      assert Success(vs[i]) == ParseInt(tokens[i]);
    }
    assert vs == xs;
  }

  // ---------------------------------------------------------------------------
  // load_horizon, one line at a time

  /** One row of the horizon table: INLINE_3D, CROSSLINE_3D, time. */
  datatype HorizonEntry = HorizonEntry(inline: int, crossline: int, time: real)

  /** Letters and ':' become spaces, the line is stripped, runs of spaces collapse. */
  function CleanLine(line: String): (r: String)
    ensures NoDoubleSpace(r)
    ensures |r| > 0 ==> !IsSpace(r[0]) && !IsSpace(r[|r| - 1])
  {
    Collapse(Strip(Blanked(line)))
  }

  /** Letters and ':' become spaces; every other character stays where it is. */
  function Blanked(line: String): (r: String)
    ensures |r| == |line|
    ensures forall k :: 0 <= k < |r| ==> !IsLetterOrColon(r[k])
    ensures forall k :: 0 <= k < |line| && IsLetterOrColon(line[k]) ==> r[k] == ' '
    ensures forall k :: 0 <= k < |line| && !IsLetterOrColon(line[k]) ==> r[k] == line[k]
  {
    seq(|line|, k requires 0 <= k < |line| => if IsLetterOrColon(line[k]) then ' ' else line[k])
  }

  /** A letter or ':' anywhere in a line cleans exactly as a space in its place would. */
  lemma CleanLineBlanksLetter(a: String, c: char, b: String)
    requires IsLetterOrColon(c)
    ensures CleanLine(a + [c] + b) == CleanLine(a + [' '] + b)
  {
    var s, t := a + [c] + b, a + [' '] + b;
    assert forall k :: 0 <= k < |s| && k != |a| ==> s[k] == t[k];
    assert Blanked(s) == Blanked(t);
  }

  /** A cleaned line holds no letter and no ':', and it is empty exactly when the line
      holds nothing but whitespace, letters and ':'. */
  lemma {:induction false} CleanLineShape(line: String)
    ensures forall k :: 0 <= k < |CleanLine(line)| ==> !IsLetterOrColon(CleanLine(line)[k])
    ensures |CleanLine(line)| == 0 <==> forall k :: 0 <= k < |line| ==> IsSpace(line[k]) || IsLetterOrColon(line[k])
  {
    var b := Blanked(line);
    var i := StripPiece(b);
    CollapseKeepsClass(Strip(b));
    assert forall k :: 0 <= k < |line| ==> (IsSpace(b[k]) <==> IsSpace(line[k]) || IsLetterOrColon(line[k]));
  }

  /** The body of load_horizon's loop for one line: None for a line that is blank once
      cleaned, otherwise (int(tokens[0]), int(tokens[1]), float(tokens[-1])), evaluated in
      that order. */
  function ParseHorizonLine(line: String): (r: Result<Option<HorizonEntry>, TextError>)
    ensures r == Success(None) <==> CleanLine(line) == []
  {
    var cleaned := CleanLine(line);
    if cleaned == [] then Success(None)
    else
      var tokens := Split(cleaned, ' ');
      var inline := ParseInt(tokens[0]);
      if inline.Failure? then Failure(inline.error)
      else if |tokens| < 2 then Failure(MissingToken)
      else
        var crossline := ParseInt(tokens[1]);
        if crossline.Failure? then Failure(crossline.error)
        else
          var time := ParseFloat(tokens[|tokens| - 1]);
          if time.Failure? then Failure(time.error)
          else Success(Some(HorizonEntry(inline.value, crossline.value, time.value)))
  }

  /** A line of two integers parses, the second serving both as crossline and as time. */
  lemma {:induction false} TwoTokenLine(a: int, b: int)
    ensures ParseHorizonLine(IntToString(a) + " " + IntToString(b)) ==
            Success(Some(HorizonEntry(a, b, b as real)))
  {
    var sa, sb := IntToString(a), IntToString(b);
    TwoPlainTokens(sa, sb);
    IntRoundTrip(a);
    IntRoundTrip(b);
    FloatOfIntString(b);
    HorizonLineOfTokens(sa + " " + sb, [sa, sb], a, b, b as real);
  }

  lemma {:induction false} TwoPlainTokens(sa: String, sb: String)
    requires IntegerText(sa) && IntegerText(sb)
    ensures CleanLine(sa + " " + sb) == sa + " " + sb
    ensures Split(sa + " " + sb, ' ') == [sa, sb]
  {
    PlainToken(sb);
    PlainJoin(sa, sb);
    CleanPlain(sa + " " + sb);
    SplitAfterPiece(sa, sb, ' ');
    SplitNoSeparator(sb, ' ');
  }

  /** A line of three integers gives (first, second, third). */
  lemma {:induction false} ThreeTokenLine(a: int, b: int, t: int)
    ensures ParseHorizonLine(IntToString(a) + " " + IntToString(b) + " " + IntToString(t)) ==
            Success(Some(HorizonEntry(a, b, t as real)))
  {
    var sa, sb, st := IntToString(a), IntToString(b), IntToString(t);
    ThreePlainTokens(sa, sb, st);
    IntRoundTrip(a);
    IntRoundTrip(b);
    FloatOfIntString(t);
    HorizonLineOfTokens(sa + " " + sb + " " + st, [sa, sb, st], a, b, t as real);
  }

  lemma {:induction false} ThreePlainTokens(sa: String, sb: String, st: String)
    requires IntegerText(sa) && IntegerText(sb) && IntegerText(st)
    ensures CleanLine(sa + " " + sb + " " + st) == sa + " " + sb + " " + st
    ensures Split(sa + " " + sb + " " + st, ' ') == [sa, sb, st]
  {
    var rest := sb + " " + st;
    var line := sa + " " + rest;
    assert sa + " " + sb + " " + st == line;
    PlainToken(sa);
    PlainToken(sb);
    PlainToken(st);
    PlainJoin(sb, st);
    PlainJoin(sa, rest);
    CleanPlain(line);
    ThreeTokens(sa, sb, st);
  }

  /** A line holding one integer fails with the IndexError of line[1]. */
  lemma {:induction false} OneTokenLine(a: int)
    ensures ParseHorizonLine(IntToString(a)) == Failure(MissingToken)
  {
    var sa := IntToString(a);
    PlainToken(sa);
    CleanPlain(sa);
    SplitNoSeparator(sa, ' ');
    IntRoundTrip(a);
  }

  lemma {:induction false} ThreeTokens(sa: String, sb: String, st: String)
    requires ' ' !in sa && ' ' !in sb && ' ' !in st
    ensures Split(sa + " " + (sb + " " + st), ' ') == [sa, sb, st]
  {
    SplitNoSeparator(st, ' ');
    SplitAfterPiece(sb, st, ' ');
    assert Split(sb + " " + st, ' ') == [sb, st];
    SplitAfterPiece(sa, sb + " " + st, ' ');
  }

  /** What ParseHorizonLine returns once the tokens of the cleaned line are known. */
  lemma {:induction false} HorizonLineOfTokens(line: String, tokens: seq<String>, a: int, b: int, t: real)
    requires CleanLine(line) != [] && Split(CleanLine(line), ' ') == tokens && |tokens| >= 2
    requires ParseInt(tokens[0]) == Success(a) && ParseInt(tokens[1]) == Success(b)
    requires ParseFloat(tokens[|tokens| - 1]) == Success(t)
    ensures ParseHorizonLine(line) == Success(Some(HorizonEntry(a, b, t)))
  {
  }

  /** The text of an integer: digits and minus signs. */
  predicate IntegerText(s: String)
  {
    |s| > 0 && forall k :: 0 <= k < |s| ==> IsDigit(s[k]) || s[k] == '-'
  }

  /** A line that CleanLine leaves as it is. */
  predicate Plain(line: String)
  {
    && (forall k :: 0 <= k < |line| ==> !IsLetterOrColon(line[k]))
    && (|line| > 0 ==> !IsSpace(line[0]) && !IsSpace(line[|line| - 1]))
    && NoDoubleSpace(line)
  }

  lemma {:induction false} CleanPlain(line: String)
    requires Plain(line)
    ensures CleanLine(line) == line
  {
    assert Blanked(line) == line;
    StripUnchanged(line);
    CollapseUnchanged(line);
  }

  lemma {:induction false} PlainToken(s: String)
    requires IntegerText(s)
    ensures Plain(s) && ' ' !in s
  {
    assert forall k :: 0 <= k < |s| ==> s[k] != ' ';
  }

  lemma {:induction false} PlainJoin(a: String, rest: String)
    requires IntegerText(a) && Plain(rest) && |rest| > 0
    ensures Plain(a + " " + rest)
  {
    PlainToken(a);
    var line := a + " " + rest;
    assert forall k :: 0 <= k < |a| ==> line[k] == a[k];
    assert forall k :: |a| < k < |line| ==> line[k] == rest[k - |a| - 1];
    assert line[|a|] == ' ';
  }

  /** What ParseHorizonLine gives for one line. */
  type LineResult = Result<Option<HorizonEntry>, TextError>

  /** The outcome of each line, in order. */
  function LineResults(lines: seq<String>): (rs: seq<LineResult>)
    ensures |rs| == |lines|
  {
    seq(|lines|, i requires 0 <= i < |lines| => ParseHorizonLine(lines[i]))
  }

  /** The rows gathered from the outcomes of the lines: the entries of the non-blank
      lines in order, or the error of the first line that fails. */
  function CollectRows(rs: seq<LineResult>): (r: Result<seq<HorizonEntry>, TextError>)
    ensures r.Success? <==> forall k :: 0 <= k < |rs| ==> rs[k].Success?
    ensures r.Success? ==> |r.value| <= |rs|
  {
    if |rs| == 0 then Success([])
    else
      var prefix := CollectRows(rs[..|rs| - 1]);
      if prefix.Failure? then prefix
      else
        var last := rs[|rs| - 1];
        if last.Failure? then Failure(last.error)
        else if last.value.None? then prefix
        else Success(prefix.value + [last.value.value])
  }

  /** The rows of load_horizon for a sequence of lines. */
  function HorizonRows(lines: seq<String>): (r: Result<seq<HorizonEntry>, TextError>)
    ensures r.Success? <==> forall k :: 0 <= k < |lines| ==> ParseHorizonLine(lines[k]).Success?
    ensures r.Success? ==> |r.value| <= |lines|
  {
    var rs := LineResults(lines);
    assert forall k :: 0 <= k < |lines| ==> rs[k] == ParseHorizonLine(lines[k]);
    CollectRows(rs)
  }

  /** One outcome gives its entry, no row for a skipped line, or its error. */
  lemma CollectRowsSingle(o: LineResult)
    ensures o.Failure? ==> CollectRows([o]) == Failure(o.error)
    ensures o == Success(None) ==> CollectRows([o]) == Success([])
    ensures o.Success? && o.value.Some? ==> CollectRows([o]) == Success([o.value.value])
  {
    assert [o][..0] == [];
    if o.Success? && o.value.Some? {
      var e: seq<HorizonEntry> := [];
      assert e + [o.value.value] == [o.value.value];
    }
  }

  /** Gathering two runs of outcomes: the first run's error if it fails, else the second
      run's error if it fails, else the first run's rows followed by the second's. */
  lemma {:induction false} CollectRowsConcat(a: seq<LineResult>, b: seq<LineResult>)
    ensures CollectRows(a).Failure? ==> CollectRows(a + b) == CollectRows(a)
    ensures CollectRows(a).Success? && CollectRows(b).Failure? ==> CollectRows(a + b) == CollectRows(b)
    ensures CollectRows(a).Success? && CollectRows(b).Success? ==>
              CollectRows(a + b) == Success(CollectRows(a).value + CollectRows(b).value)
  {
    if |b| > 0 {
      var n := |b| - 1;
      CollectRowsConcat(a, b[..n]);
      ArrayOps.DropLastConcat(a, b);
      var pa, pb := CollectRows(a), CollectRows(b[..n]);
      if pa.Success? && pb.Success? && b[n].Success? && b[n].value.Some? {
        assert (pa.value + pb.value) + [b[n].value.value] == pa.value + (pb.value + [b[n].value.value]);
      }
    } else {
      ArrayOps.ConcatEmpty(a, b);
      if CollectRows(a).Success? {
        ArrayOps.ConcatEmpty(CollectRows(a).value, CollectRows(b).value);
      }
    }
  }

  /** The lines of two pieces of text give the rows of the first piece, then those of the
      second, or the error of the first failing line. */
  lemma HorizonRowsConcat(a: seq<String>, b: seq<String>)
    ensures HorizonRows(a).Failure? ==> HorizonRows(a + b) == HorizonRows(a)
    ensures HorizonRows(a).Success? && HorizonRows(b).Failure? ==> HorizonRows(a + b) == HorizonRows(b)
    ensures HorizonRows(a).Success? && HorizonRows(b).Success? ==>
              HorizonRows(a + b) == Success(HorizonRows(a).value + HorizonRows(b).value)
  {
    LineResultsConcat(a, b);
    CollectRowsConcat(LineResults(a), LineResults(b));
  }

  lemma LineResultsConcat(a: seq<String>, b: seq<String>)
    ensures LineResults(a + b) == LineResults(a) + LineResults(b)
  {
    var l, r := LineResults(a + b), LineResults(a) + LineResults(b);
    forall k | 0 <= k < |a + b| ensures l[k] == r[k] {
      if k < |a| {
        assert (a + b)[k] == a[k];
      } else {
        assert (a + b)[k] == b[k - |a|];
      }
    }
  }

  /** The error of a gathering is that of the first failing outcome. */
  lemma {:induction false} CollectRowsFirstFailure(rs: seq<LineResult>, k: nat)
    requires k < |rs| && rs[k].Failure?
    requires forall j :: 0 <= j < k ==> rs[j].Success?
    ensures CollectRows(rs) == Failure(rs[k].error)
  {
    if k < |rs| - 1 {
      var init := rs[..|rs| - 1];
      assert init[k] == rs[k];
      CollectRowsFirstFailure(init, k);
    } else {
      var init := rs[..k];
      assert forall j :: 0 <= j < |init| ==> init[j] == rs[j];
    }
  }

  /** load_horizon raises the error of its first failing line. */
  lemma HorizonRowsFirstFailure(lines: seq<String>, k: nat)
    requires k < |lines| && ParseHorizonLine(lines[k]).Failure?
    requires forall j :: 0 <= j < k ==> ParseHorizonLine(lines[j]).Success?
    ensures HorizonRows(lines) == Failure(ParseHorizonLine(lines[k]).error)
  {
    var rs := LineResults(lines);
    assert forall j :: 0 <= j <= k ==> rs[j] == ParseHorizonLine(lines[j]);
    CollectRowsFirstFailure(rs, k);
  }

  /** One line gives its entry, no row when it is blank once cleaned, or its error. */
  lemma HorizonRowsSingle(line: String)
    ensures HorizonRows([line]) == match ParseHorizonLine(line)
                                   case Failure(e) => Failure(e)
                                   case Success(None) => Success([])
                                   case Success(Some(e)) => Success([e])
  {
    assert LineResults([line]) == [ParseHorizonLine(line)];
    CollectRowsSingle(ParseHorizonLine(line));
  }

  /** Number of lines that are not blank once cleaned. */
  function NonBlank(lines: seq<String>): nat
  {
    if |lines| == 0 then 0
    else NonBlank(lines[..|lines| - 1]) + (if CleanLine(lines[|lines| - 1]) == [] then 0 else 1)
  }

  /** Number of outcomes other than a skipped line. */
  function Filled(rs: seq<LineResult>): nat
  {
    if |rs| == 0 then 0
    else Filled(rs[..|rs| - 1]) + (if rs[|rs| - 1] == Success(None) then 0 else 1)
  }

  /** Gathering keeps one row per filled outcome, and every row comes from one outcome. */
  lemma {:induction false} CollectRowsCount(rs: seq<LineResult>)
    requires CollectRows(rs).Success?
    ensures |CollectRows(rs).value| == Filled(rs)
    ensures forall e :: e in CollectRows(rs).value ==> exists k :: 0 <= k < |rs| && rs[k] == Success(Some(e))
  {
    if |rs| > 0 {
      var init := rs[..|rs| - 1];
      CollectRowsCount(init);
      forall e | e in CollectRows(rs).value
        ensures exists k :: 0 <= k < |rs| && rs[k] == Success(Some(e))
      {
        if e in CollectRows(init).value {
          var k :| 0 <= k < |init| && init[k] == Success(Some(e));
          assert rs[k] == init[k];
        } else {
          assert rs[|rs| - 1] == Success(Some(e));
        }
      }
    }
  }

  /** The lines that are not blank are those whose outcome is not a skip. */
  lemma {:induction false} NonBlankFilled(lines: seq<String>)
    ensures NonBlank(lines) == Filled(LineResults(lines))
  {
    var rs := LineResults(lines);
    forall k | 0 <= k < |lines| ensures (rs[k] == Success(None)) == (CleanLine(lines[k]) == []) {
      assert rs[k] == ParseHorizonLine(lines[k]);
    }
    NonBlankSkips(lines, rs);
  }

  lemma {:induction false} NonBlankSkips(lines: seq<String>, rs: seq<LineResult>)
    requires |rs| == |lines|
    requires forall k :: 0 <= k < |lines| ==> (rs[k] == Success(None)) == (CleanLine(lines[k]) == [])
    ensures NonBlank(lines) == Filled(rs)
  {
    if |lines| > 0 {
      var k := |lines| - 1;
      NonBlankSkips(lines[..k], rs[..k]);
    }
  }

  /** A successful load has one row per non-blank line, and every row is the parse of
      some line. */
  lemma HorizonRowsCount(lines: seq<String>)
    requires HorizonRows(lines).Success?
    ensures |HorizonRows(lines).value| == NonBlank(lines)
    ensures forall e :: e in HorizonRows(lines).value ==>
              exists k :: 0 <= k < |lines| && ParseHorizonLine(lines[k]) == Success(Some(e))
  {
    var rs := LineResults(lines);
    CollectRowsCount(rs);
    NonBlankFilled(lines);
    forall e | e in HorizonRows(lines).value
      ensures exists k :: 0 <= k < |lines| && ParseHorizonLine(lines[k]) == Success(Some(e))
    {
      var k :| 0 <= k < |rs| && rs[k] == Success(Some(e));
      assert ParseHorizonLine(lines[k]) == rs[k];
    }
  }

  /** A failed outcome makes the gathering fail. */
  lemma {:induction false} CollectRowsFailure(rs: seq<LineResult>, k: nat)
    requires k < |rs| && rs[k].Failure?
    ensures CollectRows(rs).Failure?
  {
    if k < |rs| - 1 {
      CollectRowsFailure(rs[..|rs| - 1], k);
    }
  }

  /** A line that fails makes the whole load fail. */
  lemma HorizonRowsFailure(lines: seq<String>, k: nat)
    requires k < |lines| && ParseHorizonLine(lines[k]).Failure?
    ensures HorizonRows(lines).Failure?
  {
    var rs := LineResults(lines);
    assert rs[k] == ParseHorizonLine(lines[k]);
    CollectRowsFailure(rs, k);
  }

  /** load_horizon after the file is read: split the text at newlines and collect the
      entries of the non-blank lines, stopping at the first line that raises. */
  method LoadHorizon(text: String) returns (r: Result<seq<HorizonEntry>, TextError>)
    ensures r == HorizonRows(Split(text, '\n'))
  {
    var lines := Split(text, '\n');
    ghost var rs := LineResults(lines);
    var rows: seq<HorizonEntry> := [];
    var i := 0;
    while i < |lines|
      invariant 0 <= i <= |lines|
      invariant CollectRows(rs[..i]) == Success(rows)
    {
      assert rs[..i + 1][..i] == rs[..i];
      var parsed := ParseHorizonLine(lines[i]);
      assert rs[i] == parsed;
      if parsed.Failure? {
        CollectRowsPrefixFailure(rs, i + 1);
        return Failure(parsed.error);
      }
      if parsed.value.Some? {
        rows := rows + [parsed.value.value];
      }
      i := i + 1;
    }
    assert rs[..i] == rs;
    r := Success(rows);
  }

  /** Once a prefix of the outcomes fails, every longer prefix fails with the same error. */
  lemma {:induction false} CollectRowsPrefixFailure(rs: seq<LineResult>, n: nat)
    requires n <= |rs| && CollectRows(rs[..n]).Failure?
    ensures CollectRows(rs) == CollectRows(rs[..n])
  {
    if n < |rs| {
      assert rs[..|rs| - 1][..n] == rs[..n];
      CollectRowsPrefixFailure(rs[..|rs| - 1], n);
    } else {
      assert rs[..n] == rs;
    }
  }
}
