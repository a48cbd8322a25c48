/**
  Strings as the page script sees them: possibly-absent attribute values,
  `String.prototype.trim` and `String.prototype.split(',')`.
 */
module Text {

  /**
    A value that may be missing: a `data-*` attribute the card does not carry
    (read as `undefined`), or a `localStorage` key never written (read as `null`).
   */
  datatype MaybeString = Absent | Present(value: string)

  /** `value || ""`: a missing value and the empty string both read as `""`. */
  function OrEmpty(m: MaybeString): (r: string)
    ensures m.Absent? ==> r == ""
    ensures m.Present? ==> r == m.value
  {
    match m
    case Absent => ""
    case Present(v) => v
  }

  /**
    The characters `trim` removes: ECMAScript's WhiteSpace (tab, vertical tab,
    form feed, no-break space, byte order mark and the Unicode space
    separators) and LineTerminator (line feed, carriage return, line and
    paragraph separators) productions.
   */
  predicate IsWhitespace(c: char) {
    || c == '\t' || c == '\n' || c == '\U{000B}' || c == '\U{000C}' || c == '\r'
    || c == ' ' || c == '\U{00A0}' || c == '\U{1680}'
    || ('\U{2000}' <= c <= '\U{200A}')
    || c == '\U{2028}' || c == '\U{2029}' || c == '\U{202F}' || c == '\U{205F}'
    || c == '\U{3000}' || c == '\U{FEFF}'
  }

  /** Every character of `s` is whitespace (vacuously so for `""`). */
  predicate IsBlank(s: string) {
    forall i :: 0 <= i < |s| ==> IsWhitespace(s[i])
  }

  /** `s` without its leading whitespace. */
  function TrimStart(s: string): (r: string)
    ensures |r| <= |s| && r == s[|s| - |r|..]
    ensures IsBlank(s[..|s| - |r|])
    ensures r == [] || !IsWhitespace(r[0])
  {
    if |s| > 0 && IsWhitespace(s[0]) then
      var r := TrimStart(s[1..]);
      assert s[..|s| - |r|] == [s[0]] + s[1..][..|s| - 1 - |r|];
      r
    else s
  }

  /** `s` without its trailing whitespace. */
  function TrimEnd(s: string): (r: string)
    ensures |r| <= |s| && r == s[..|r|]
    ensures IsBlank(s[|r|..])
    ensures r == [] || !IsWhitespace(r[|r| - 1])
  {
    if |s| > 0 && IsWhitespace(s[|s| - 1]) then
      var r := TrimEnd(s[..|s| - 1]);
      assert s[|r|..] == s[..|s| - 1][|r|..] + [s[|s| - 1]];
      r
    else s
  }

  /**
    `s.trim()`: `s` without leading and trailing whitespace. The result is
    what is left of `s` once a blank prefix and a blank suffix are cut off;
    it neither starts nor ends with whitespace, and it is empty exactly when
    `s` is blank.
   */
  function Trim(s: string): (r: string)
    ensures |r| <= |s|
    ensures r == [] || (!IsWhitespace(r[0]) && !IsWhitespace(r[|r| - 1]))
    ensures r == "" <==> IsBlank(s)
  {
    var t := TrimStart(s);
    assert s == s[..|s| - |t|] + t;
    TrimEnd(t)
  }

  /**
    What `trim` keeps is a piece of `s` itself: `s` is a blank prefix, then
    the result, then a blank suffix.
   */
  lemma {:induction false} TrimCutsBlankEnds(s: string)
    ensures var t, r := TrimStart(s), Trim(s);
      && t == s[|s| - |t|..] && IsBlank(s[..|s| - |t|])
      && r == t[..|r|] && IsBlank(t[|r|..])
  {
  }

  /** `s.trim() !== ''` holds exactly when `s` has a non-whitespace character. */
  lemma {:induction false} TrimEmptyIffBlank(s: string)
    ensures Trim(s) == "" <==> IsBlank(s)
  {
    var t := TrimStart(s);
    assert s == s[..|s| - |t|] + t;
  }

  /**
    `s.split(',')`: the maximal comma-free pieces of `s`, in order. There is
    always at least one piece; `"".split(',')` is `[""]`.
   */
  function Split(s: string): (r: seq<string>)
    ensures |r| >= 1
    ensures forall k :: 0 <= k < |r| ==> ',' !in r[k]
  {
    if |s| == 0 then [""]
    else
      var rest := Split(s[1..]);
      if s[0] == ',' then [""] + rest
      else [[s[0]] + rest[0]] + rest[1..]
  }

  /** `parts.join(',')`. */
  function Join(parts: seq<string>): string
  {
    if |parts| == 0 then ""
    else if |parts| == 1 then parts[0]
    else parts[0] + "," + Join(parts[1..])
  }

  /** Number of commas in `s`. */
  function Commas(s: string): nat
  {
    if |s| == 0 then 0 else (if s[0] == ',' then 1 else 0) + Commas(s[1..])
  }

  /** Splitting yields one more piece than there are commas. */
  lemma {:induction false} SplitCount(s: string)
    ensures |Split(s)| == Commas(s) + 1
  {
    if |s| > 0 {
      SplitCount(s[1..]);
    }
  }

  /** Joining the pieces back with commas restores the string. */
  lemma {:induction false} JoinSplit(s: string)
    ensures Join(Split(s)) == s
  {
    if |s| > 0 {
      JoinSplit(s[1..]);
      var rest := Split(s[1..]);
      if s[0] == ',' {
        assert Split(s) == [""] + rest;
        assert (Split(s))[1..] == rest;
        assert s == "," + s[1..];
      } else {
        var parts := Split(s);
        assert parts == [[s[0]] + rest[0]] + rest[1..];
        if |rest| == 1 {
          assert s == [s[0]] + s[1..];
        } else {
          assert parts[1..] == rest[1..];
          assert Join(rest) == rest[0] + "," + Join(rest[1..]);
          assert Join(parts) == [s[0]] + rest[0] + "," + Join(rest[1..]);
          assert s == [s[0]] + s[1..];
        }
      }
    }
  }

  /** A comma-free prefix is glued onto the first piece of what follows. */
  lemma {:induction false} SplitCommaFreePrefix(a: string, b: string)
    requires ',' !in a
    ensures Split(a + b) == [a + Split(b)[0]] + Split(b)[1..]
  {
    if |a| > 0 {
      var sb := Split(b);
      assert (a + b)[1..] == a[1..] + b;
      assert a[0] == (a + b)[0] && a[0] != ',';
      SplitCommaFreePrefix(a[1..], b);
      var rest := Split(a[1..] + b);
      assert rest[0] == a[1..] + sb[0] && rest[1..] == sb[1..];
      assert Split(a + b) == [[a[0]] + rest[0]] + rest[1..];
      assert [a[0]] + (a[1..] + sb[0]) == a + sb[0];
    } else {
      var r := Split(b);
      assert a + b == b;
      assert a + r[0] == r[0];
      assert r == [r[0]] + r[1..];
    }
  }

  /** Splitting a comma-joined list of comma-free pieces recovers the pieces. */
  lemma {:induction false} SplitJoin(parts: seq<string>)
    requires |parts| >= 1
    requires forall k :: 0 <= k < |parts| ==> ',' !in parts[k]
    ensures Split(Join(parts)) == parts
  {
    if |parts| == 1 {
      SplitCommaFreePrefix(parts[0], "");
      assert parts[0] + "" == parts[0];
    } else {
      var tail := Join(parts[1..]);
      SplitJoin(parts[1..]);
      assert Join(parts) == parts[0] + ("," + tail);
      SplitCommaFreePrefix(parts[0], "," + tail);
      assert ("," + tail)[1..] == tail;
      var r := Split("," + tail);
      assert r == [""] + parts[1..];
      assert r[0] == "" && r[1..] == parts[1..];
      assert parts[0] + r[0] == parts[0];
      assert parts == [parts[0]] + parts[1..];
    }
  }
}
