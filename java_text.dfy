/**
  The pieces of java.lang.String and java.lang.Integer that the loader and the
  report writer rely on: String.trim, String.split with a one-character
  delimiter, Integer.parseInt, Integer.toString (what StringBuilder.append(int)
  writes) and String.equalsIgnoreCase.
 */
module JavaText {

  datatype Option<+T> = None | Some(value: T)

  // ---------------------------------------------------------------------------
  // String.trim: strips every leading and trailing char whose code is <= U+0020
  // ---------------------------------------------------------------------------

  predicate IsTrimmable(c: char) { c <= ' ' }

  /** Drops the leading run of trimmable chars. */
  function TrimStart(s: string): (r: string)
  {
    if s != [] && IsTrimmable(s[0]) then TrimStart(s[1..]) else s
  }

  /** Drops the trailing run of trimmable chars. */
  function TrimEnd(s: string): (r: string)
  {
    if s != [] && IsTrimmable(s[|s| - 1]) then TrimEnd(s[..|s| - 1]) else s
  }

  /** TrimStart keeps the suffix of `s` that starts at its first non-trimmable char. */
  lemma {:induction false} TrimStartSuffix(s: string)
    ensures var r := TrimStart(s);
      |r| <= |s| && r == s[|s| - |r|..] &&
      (forall k :: 0 <= k < |s| - |r| ==> IsTrimmable(s[k])) &&
      (r != [] ==> !IsTrimmable(r[0]))
  {
    if s != [] && IsTrimmable(s[0]) {
      TrimStartSuffix(s[1..]);
      var r := TrimStart(s);
      forall k | 1 <= k < |s| - |r| ensures IsTrimmable(s[k]) {
        assert s[k] == s[1..][k - 1];
      }
    }
  }

  /** TrimEnd keeps the prefix of `s` that ends at its last non-trimmable char. */
  lemma {:induction false} TrimEndPrefix(s: string)
    ensures var r := TrimEnd(s);
      |r| <= |s| && r == s[..|r|] &&
      (forall k :: |r| <= k < |s| ==> IsTrimmable(s[k])) &&
      (r != [] ==> !IsTrimmable(r[|r| - 1]))
  {
    if s != [] && IsTrimmable(s[|s| - 1]) {
      TrimEndPrefix(s[..|s| - 1]);
      var r := TrimEnd(s);
      forall k | |r| <= k < |s| - 1 ensures IsTrimmable(s[k]) {
        assert s[k] == s[..|s| - 1][k];
      }
    }
  }

  function Trim(s: string): (r: string)
  {
    TrimEnd(TrimStart(s))
  }

  /** Trim keeps one contiguous slice of the input, everything it cuts off is
      trimmable, and what it keeps neither starts nor ends with a trimmable char. */
  lemma TrimSlice(s: string) returns (lo: nat, hi: nat)
    ensures lo <= hi <= |s| && Trim(s) == s[lo..hi]
    ensures forall k :: 0 <= k < lo ==> IsTrimmable(s[k])
    ensures forall k :: hi <= k < |s| ==> IsTrimmable(s[k])
    ensures Trim(s) != [] ==> !IsTrimmable(Trim(s)[0]) && !IsTrimmable(Trim(s)[|Trim(s)| - 1])
  {
    var t := TrimStart(s);
    var r := TrimEnd(t);
    TrimStartSuffix(s);
    TrimEndPrefix(t);
    lo, hi := |s| - |t|, |s| - |t| + |r|;
    assert r == t[..|r|];
    assert s[lo..hi] == t[..|r|];
    forall k | hi <= k < |s| ensures IsTrimmable(s[k]) {
      assert s[k] == t[k - lo];
    }
    if r != [] {
      assert r[0] == t[0];
    }
  }

  /** A line is blank after trimming exactly when every char of it is trimmable. */
  lemma TrimEmptyIff(s: string)
    ensures Trim(s) == [] <==> forall k :: 0 <= k < |s| ==> IsTrimmable(s[k])
  {
    var lo, hi := TrimSlice(s);
  }

  /** Trimming twice is trimming once. */
  lemma TrimIdempotent(s: string)
    ensures Trim(Trim(s)) == Trim(s)
  {
    var t := Trim(s);
    var lo, hi := TrimSlice(s);
    if t != [] {
      assert TrimStart(t) == t;
      assert TrimEnd(t) == t;
    }
  }

  // ---------------------------------------------------------------------------
  // String.split with a one-character delimiter
  // ---------------------------------------------------------------------------

  /** Every piece between delimiters, empty pieces included: the building block
      that Java's split then trims. */
  function SplitAll(s: string, d: char): (parts: seq<string>)
    ensures |parts| >= 1
    ensures forall p :: p in parts ==> d !in p
  {
    if s == [] then [""]
    else
      var rest := SplitAll(s[1..], d);
      if s[0] == d then [""] + rest
      else [[s[0]] + rest[0]] + rest[1..]
  }

  /** The pieces glued back together with the delimiter between them. */
  function Join(parts: seq<string>, d: char): (r: string)
    requires |parts| >= 1
  {
    if |parts| == 1 then parts[0] else parts[0] + [d] + Join(parts[1..], d)
  }

  /** Drops the trailing empty strings, as split does when no limit is given. */
  function DropTrailingEmpty(parts: seq<string>): (r: seq<string>)
    ensures |r| <= |parts| && r == parts[..|r|]
    ensures forall k :: |r| <= k < |parts| ==> parts[k] == ""
    ensures r != [] ==> r[|r| - 1] != ""
  {
    if parts == [] then []
    else if parts[|parts| - 1] == "" then DropTrailingEmpty(parts[..|parts| - 1])
    else parts
  }

  /** `s.split(d)` in Java for a delimiter that is no regex metacharacter: when the
      delimiter does not occur the whole string is the single part (even when it
      is empty); otherwise the pieces between delimiters, trailing empty pieces
      removed (so a string made only of delimiters gives no part at all). */
  function JavaSplit(s: string, d: char): (parts: seq<string>)
  {
    if d !in s then [s] else DropTrailingEmpty(SplitAll(s, d))
  }

  lemma JoinCons(c: char, p: string, ps: seq<string>, d: char)
    ensures Join([[c] + p] + ps, d) == [c] + Join([p] + ps, d)
  {
    if ps != [] {
      assert ([[c] + p] + ps)[1..] == ps;
      assert ([p] + ps)[1..] == ps;
    }
  }

  /** Joining the pieces back with the delimiter gives the string again. */
  lemma {:induction false} JoinSplitAll(s: string, d: char)
    ensures Join(SplitAll(s, d), d) == s
  {
    if s != [] {
      var rest := SplitAll(s[1..], d);
      JoinSplitAll(s[1..], d);
      if s[0] == d {
        assert ([""] + rest)[1..] == rest;
      } else {
        assert [rest[0]] + rest[1..] == rest;
        JoinCons(s[0], rest[0], rest[1..], d);
      }
      assert s == [s[0]] + s[1..];
    }
  }

  /** Splitting a join of delimiter-free pieces gives the pieces back. */
  lemma {:induction false} SplitAllJoin(parts: seq<string>, d: char)
    requires |parts| >= 1
    requires forall p :: p in parts ==> d !in p
    ensures SplitAll(Join(parts, d), d) == parts
  {
    if |parts| == 1 {
      SplitAllFree(parts[0], d);
    } else {
      SplitAllJoin(parts[1..], d);
      SplitAllPrefix(parts[0], Join(parts[1..], d), d);
      assert [parts[0]] + parts[1..] == parts;
    }
  }

  /** A delimiter-free string is one piece. */
  lemma {:induction false} SplitAllFree(s: string, d: char)
    requires d !in s
    ensures SplitAll(s, d) == [s]
  {
    if s != [] {
      SplitAllFree(s[1..], d);
      assert [s[0]] + s[1..] == s;
    }
  }

  /** A delimiter-free head followed by a delimiter ends the first piece. */
  lemma {:induction false} SplitAllPrefix(p: string, tail: string, d: char)
    requires d !in p
    ensures SplitAll(p + [d] + tail, d) == [p] + SplitAll(tail, d)
  {
    var s := p + [d] + tail;
    if p == [] {
      assert s[1..] == tail;
    } else {
      assert s[1..] == p[1..] + [d] + tail;
      SplitAllPrefix(p[1..], tail, d);
      assert [p[0]] + p[1..] == p;
    }
  }

  /** What Java's split keeps: delimiter-free parts, a prefix of all the pieces,
      the pieces it drops all empty, and no empty part at the end unless the
      delimiter was absent. */
  lemma JavaSplitParts(s: string, d: char)
    ensures forall p :: p in JavaSplit(s, d) ==> d !in p
    ensures d !in s ==> JavaSplit(s, d) == [s]
    ensures d in s ==>
      var all := SplitAll(s, d);
      var parts := JavaSplit(s, d);
      parts == all[..|parts|] && Join(all, d) == s &&
      (forall k :: |parts| <= k < |all| ==> all[k] == "") &&
      (parts != [] ==> parts[|parts| - 1] != "")
  {
    JoinSplitAll(s, d);
    if d in s {
      var all := SplitAll(s, d);
      var parts := JavaSplit(s, d);
      forall p | p in parts ensures d !in p {
        var k :| 0 <= k < |parts| && parts[k] == p;
        assert all[k] == p;
      }
    }
  }

  lemma JoinExample()
    ensures Join(["a", "b", "c", "1", "2", ""], ';') == "a;b;c;1;2;"
  {
    assert Join([""], ';') == "";
    assert Join(["2", ""], ';') == "2;";
    assert Join(["1", "2", ""], ';') == "1;2;";
    assert Join(["c", "1", "2", ""], ';') == "c;1;2;";
    assert Join(["b", "c", "1", "2", ""], ';') == "b;c;1;2;";
  }

  /** Trailing empty pieces are dropped: "a;b;c;1;2;" has five parts, not six. */
  lemma JavaSplitTrailingExample()
    ensures JavaSplit("a;b;c;1;2;", ';') == ["a", "b", "c", "1", "2"]
  {
    var parts := ["a", "b", "c", "1", "2"];
    JoinExample();
    assert parts + [""] == ["a", "b", "c", "1", "2", ""];
    assert forall p :: p in parts + [""] ==> ';' !in p;
    SplitAllJoin(parts + [""], ';');
    assert "a;b;c;1;2;"[1] == ';';
    assert (parts + [""])[..5] == parts;
  }

  /** Each line followed by a line feed, as a StringBuilder fills up when every
      append ends in "\n". */
  function Unlines(lines: seq<string>): (r: string)
  {
    if lines == [] then "" else lines[0] + "\n" + Unlines(lines[1..])
  }

  lemma {:induction false} UnlinesAppend(a: seq<string>, b: seq<string>)
    ensures Unlines(a + b) == Unlines(a) + Unlines(b)
  {
    if a == [] {
      assert a + b == b;
    } else {
      var head := a[0] + "\n";
      assert Unlines(a + b) == head + Unlines(a[1..] + b) by {
        assert (a + b)[0] == a[0] && (a + b)[1..] == a[1..] + b;
      }
      UnlinesAppend(a[1..], b);
      assert head + (Unlines(a[1..]) + Unlines(b)) == head + Unlines(a[1..]) + Unlines(b);
    }
  }

  /** Unlines is a join with "\n" that leaves an empty piece at the end. */
  lemma {:induction false} UnlinesJoin(lines: seq<string>)
    ensures Unlines(lines) == Join(lines + [""], '\n')
  {
    if lines != [] {
      UnlinesJoin(lines[1..]);
      assert (lines + [""])[1..] == lines[1..] + [""];
    }
  }

  /** Splitting text made of line-feed-free lines at every "\n" gives the lines
      back, and the empty piece after the last line feed. */
  lemma SplitUnlines(lines: seq<string>)
    requires forall k :: 0 <= k < |lines| ==> '\n' !in lines[k]
    ensures SplitAll(Unlines(lines), '\n') == lines + [""]
  {
    UnlinesJoin(lines);
    forall p | p in lines + [""] ensures '\n' !in p {
      var k :| 0 <= k < |lines + [""]| && (lines + [""])[k] == p;
      if k < |lines| {
        assert p == lines[k];
      }
    }
    SplitAllJoin(lines + [""], '\n');
  }

  // ---------------------------------------------------------------------------
  // Integer.parseInt and Integer.toString
  // ---------------------------------------------------------------------------

  const IntMin: int := -0x8000_0000
  const IntMax: int := 0x7FFF_FFFF

  /** The range of a Java `int`. */
  predicate IsInt(n: int) { IntMin <= n <= IntMax }

  predicate IsDigit(c: char) { '0' <= c <= '9' }

  predicate AllDigits(s: string) { forall k :: 0 <= k < |s| ==> IsDigit(s[k]) }

  /** The value of a decimal numeral, read left to right. */
  function DigitsValue(s: string): (n: nat)
    requires AllDigits(s)
  {
    if s == [] then 0 else DigitsValue(s[..|s| - 1]) * 10 + (s[|s| - 1] - '0') as int
  }

  /** `Integer.parseInt(s)`: an optional `+` or `-`, then one or more decimal
      digits, and a value inside the `int` range; anything else is a
      NumberFormatException, modelled as None. */
  function ParseInt(s: string): (r: Option<int>)
    ensures r.Some? ==> IsInt(r.value)
    ensures r.Some? ==> s != [] && (s[0] == '+' || s[0] == '-' || IsDigit(s[0]))
    ensures r.Some? ==> |s| >= 2 || IsDigit(s[0])
    ensures r.Some? ==> forall k :: 1 <= k < |s| ==> IsDigit(s[k])
  {
    if s == [] then None
    else
      var digits := if s[0] == '-' || s[0] == '+' then s[1..] else s;
      if digits == [] || !AllDigits(digits) then None
      else
        var magnitude: int := DigitsValue(digits);
        var v := if s[0] == '-' then -magnitude else magnitude;
        if IsInt(v) then Some(v) else None
  }

  function DigitChar(d: nat): (c: char)
    requires d < 10
    ensures IsDigit(c) && (c - '0') as int == d
  {
    ('0' as int + d) as char
  }

  /** Decimal numeral of a natural number, without leading zeros. */
  function NatToString(n: nat): (s: string)
  {
    if n < 10 then [DigitChar(n)] else NatToString(n / 10) + [DigitChar(n % 10)]
  }

  /** `Integer.toString(n)`, which is what StringBuilder.append(int) appends. */
  function IntToString(n: int): (s: string)
  {
    if n < 0 then "-" + NatToString(-n) else NatToString(n)
  }

  /** The numeral is made of digits, is never empty, and reads back as `n`. */
  lemma {:induction false} NatToStringValue(n: nat)
    ensures NatToString(n) != [] && AllDigits(NatToString(n))
    ensures DigitsValue(NatToString(n)) == n
  {
    var s := NatToString(n);
    if n >= 10 {
      NatToStringValue(n / 10);
      assert s[..|s| - 1] == NatToString(n / 10);
    }
  }

  /** parseInt reads back every `int` that toString writes. */
  lemma ParseIntToString(n: int)
    requires IsInt(n)
    ensures ParseInt(IntToString(n)) == Some(n)
  {
    var m := if n < 0 then -n else n;
    NatToStringValue(m);
    var s := IntToString(n);
    if n < 0 {
      assert s[1..] == NatToString(m);
    }
  }

  /** A numeral holds digits and possibly a minus sign, nothing else. */
  lemma IntToStringChars(n: int)
    ensures forall c :: c in IntToString(n) ==> c == '-' || IsDigit(c)
  {
    var m := if n < 0 then -n else n;
    NatToStringValue(m);
    var digits := NatToString(m);
    forall c | c in IntToString(n) ensures c == '-' || IsDigit(c) {
      if c !in digits {
        assert n < 0 && IntToString(n) == "-" + digits;
      } else {
        var k :| 0 <= k < |digits| && digits[k] == c;
      }
    }
  }

  lemma ParseIntExamples()
    ensures ParseInt("1") == Some(1) && ParseInt("2") == Some(2)
    ensures ParseInt("+7") == Some(7) && ParseInt("-7") == Some(-7)
    ensures ParseInt("") == None && ParseInt("-") == None && ParseInt(" 1") == None
  {
  }

  /** The value a numeral denotes: its digits, negated after a minus sign. */
  function NumeralValue(sign: string, digits: string): (v: int)
    requires AllDigits(digits)
    ensures sign == "-" ==> v <= 0
    ensures sign != "-" ==> v >= 0
  {
    if sign == "-" then -(DigitsValue(digits) as int) else DigitsValue(digits)
  }

  /** A well-formed numeral, an optional sign and one or more digits, parses
      to its value when that value is an `int` and fails otherwise. With the
      shape clauses on ParseInt, which say that nothing else parses, this
      fixes parseInt on every input: leading zeros and a `+` sign included. */
  lemma ParseIntNumeral(sign: string, digits: string)
    requires sign == "" || sign == "+" || sign == "-"
    requires digits != [] && AllDigits(digits)
    ensures ParseInt(sign + digits)
         == if IsInt(NumeralValue(sign, digits)) then Some(NumeralValue(sign, digits)) else None
  {
    var s := sign + digits;
    if sign == "" {
      assert s == digits;
      assert IsDigit(s[0]);
    } else {
      assert s[0] == sign[0];
      assert s[1..] == digits;
    }
  }

  /** parseInt rejects every numeral whose value lies outside the `int`
      range, whatever its sign and however many leading zeros it has. */
  lemma ParseIntOutOfRange(sign: string, digits: string)
    requires sign == "" || sign == "+" || sign == "-"
    requires digits != [] && AllDigits(digits)
    requires !IsInt(NumeralValue(sign, digits))
    ensures ParseInt(sign + digits) == None
  {
    ParseIntNumeral(sign, digits);
  }

  /** One more digit on the right multiplies the value by ten and adds it. */
  lemma DigitsValueSnoc(s: string, c: char)
    requires AllDigits(s) && IsDigit(c)
    ensures AllDigits(s + [c])
    ensures DigitsValue(s + [c]) == DigitsValue(s) * 10 + (c - '0') as int
  {
    assert (s + [c])[..|s|] == s;
  }

  /** The digits of the `int` bounds and of the first numerals past them. */
  lemma DigitsValueNearBounds()
    ensures AllDigits("2147483647") && DigitsValue("2147483647") == IntMax
    ensures AllDigits("2147483648") && DigitsValue("2147483648") == IntMax + 1
    ensures AllDigits("2147483649") && DigitsValue("2147483649") == IntMax + 2
  {
    DigitsValueSnoc("", '2');
    assert "" + ['2'] == "2";
    DigitsValueSnoc("2", '1');
    assert "2" + ['1'] == "21";
    DigitsValueSnoc("21", '4');
    assert "21" + ['4'] == "214";
    DigitsValueSnoc("214", '7');
    assert "214" + ['7'] == "2147";
    DigitsValueSnoc("2147", '4');
    assert "2147" + ['4'] == "21474";
    DigitsValueSnoc("21474", '8');
    assert "21474" + ['8'] == "214748";
    DigitsValueSnoc("214748", '3');
    assert "214748" + ['3'] == "2147483";
    DigitsValueSnoc("2147483", '6');
    assert "2147483" + ['6'] == "21474836";
    DigitsValueSnoc("21474836", '4');
    assert "21474836" + ['4'] == "214748364";
    DigitsValueSnoc("214748364", '7');
    assert "214748364" + ['7'] == "2147483647";
    DigitsValueSnoc("214748364", '8');
    assert "214748364" + ['8'] == "2147483648";
    DigitsValueSnoc("214748364", '9');
    assert "214748364" + ['9'] == "2147483649";
  }

  /** The `int` bounds parse; one past either bound fails, signed or not. */
  lemma ParseIntBounds()
    ensures ParseInt("2147483647") == Some(IntMax)
    ensures ParseInt("-2147483648") == Some(IntMin)
    ensures ParseInt("+2147483648") == None
    ensures ParseInt("-2147483649") == None
  {
    DigitsValueNearBounds();
    ParseIntNumeral("", "2147483647");
    ParseIntNumeral("-", "2147483648");
    ParseIntNumeral("+", "2147483648");
    ParseIntNumeral("-", "2147483649");
  }

  /** A string holding a space or any other trimmable char never parses, so a
      field with spaces around its number is rejected. */
  lemma ParseIntRejectsTrimmable(s: string, k: nat)
    requires k < |s| && IsTrimmable(s[k])
    ensures ParseInt(s) == None
  {
  }

  // ---------------------------------------------------------------------------
  // String.equalsIgnoreCase, with ASCII case mapping
  // ---------------------------------------------------------------------------

  function ToUpper(c: char): (u: char)
  {
    if 'a' <= c <= 'z' then (c as int - 32) as char else c
  }

  /** Two chars match when they are equal or their upper-case forms are. */
  predicate CharEqualsIgnoreCase(a: char, b: char)
  {
    a == b || ToUpper(a) == ToUpper(b)
  }

  predicate EqualsIgnoreCase(a: string, b: string)
  {
    |a| == |b| && forall k :: 0 <= k < |a| ==> CharEqualsIgnoreCase(a[k], b[k])
  }
}
