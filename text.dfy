/** Python's string primitives as the tools use them: `str.split()` with no
    argument, `str.split(sep)`, `sep.join(...)`, `readline()` on a text file,
    `int(token)` and `str(n)`. Strings are sequences of characters. */
module Text {

  datatype Option<T> = None | Some(value: T)

  /** Python's `str.isspace()`: the characters `str.split()` treats as
      separators (ASCII \t \n \v \f \r, the information separators 0x1C-0x1F,
      the space, and the Unicode spaces). */
  predicate IsSpace(c: char) {
    var k := c as int;
    (9 <= k <= 13) || (28 <= k <= 32) || k == 0x85 || k == 0xA0 || k == 0x1680
    || (0x2000 <= k <= 0x200A) || k == 0x2028 || k == 0x2029 || k == 0x202F
    || k == 0x205F || k == 0x3000
  }

  /** A token as `str.split()` returns it: non-empty, no separator inside. */
  predicate IsToken(t: string) {
    t != [] && forall k :: 0 <= k < |t| ==> !IsSpace(t[k])
  }

  /** Length of the leading run of non-space characters. */
  function TokenLen(s: string): (n: nat)
    ensures n <= |s|
    ensures forall k :: 0 <= k < n ==> !IsSpace(s[k])
    ensures n < |s| ==> IsSpace(s[n])
  {
    if s == [] || IsSpace(s[0]) then 0 else 1 + TokenLen(s[1..])
  }

  /** `s.split()`: the maximal runs of non-space characters, in order. */
  function SplitWs(s: string): (r: seq<string>)
    ensures forall i :: 0 <= i < |r| ==> IsToken(r[i])
    decreases |s|
  {
    if s == [] then []
    else if IsSpace(s[0]) then SplitWs(s[1..])
    else
      var n := TokenLen(s);
      [s[..n]] + SplitWs(s[n..])
  }

  /** Index of the first `c` in `s`, or `|s|` when there is none. */
  function Find(s: string, c: char): (i: nat)
    ensures i <= |s|
    ensures forall k :: 0 <= k < i ==> s[k] != c
    ensures i < |s| ==> s[i] == c
  {
    if s == [] || s[0] == c then 0 else 1 + Find(s[1..], c)
  }

  /** `s.split(sep)` for a one-character separator: always at least one
      field, empty fields kept. */
  function Split(s: string, sep: char): (r: seq<string>)
    ensures |r| >= 1
    decreases |s|
  {
    var i := Find(s, sep);
    if i == |s| then [s] else [s[..i]] + Split(s[i + 1..], sep)
  }

  /** `sep.join(ts)`. */
  function Join(ts: seq<string>, sep: char): string {
    if ts == [] then []
    else if |ts| == 1 then ts[0]
    else ts[0] + [sep] + Join(ts[1..], sep)
  }

  /** `"".join(ts)`. */
  function Concat(ts: seq<string>): string {
    if ts == [] then [] else ts[0] + Concat(ts[1..])
  }

  /** The successive results of `readline()` on a file holding `s`: each
      line keeps its terminating newline; the last may lack one. */
  function Lines(s: string): (r: seq<string>)
    ensures forall i :: 0 <= i < |r| ==> r[i] != []
    decreases |s|
  {
    if s == [] then []
    else
      var i := Find(s, '\n');
      if i == |s| then [s] else [s[..i + 1]] + Lines(s[i + 1..])
  }

  /** The first `readline()` of a file holding `s` ("" for an empty file). */
  function FirstLine(s: string): string {
    var ls := Lines(s);
    if ls == [] then [] else ls[0]
  }

  /** Number of occurrences of `c` in `s`. */
  function Count(s: string, c: char): nat {
    if s == [] then 0 else (if s[0] == c then 1 else 0) + Count(s[1..], c)
  }

  /** `s` with every `c` removed. */
  function Remove(s: string, c: char): string {
    if s == [] then [] else (if s[0] == c then [] else [s[0]]) + Remove(s[1..], c)
  }

  predicate IsDigit(c: char) { '0' <= c <= '9' }

  predicate AllDigits(s: string) {
    forall k :: 0 <= k < |s| ==> IsDigit(s[k])
  }

  /** Decimal value of a digit string (leading zeros allowed). */
  function DigitsValue(s: string): nat
    requires AllDigits(s)
  {
    if s == [] then 0
    else DigitsValue(s[..|s| - 1]) * 10 + (s[|s| - 1] as int - '0' as int)
  }

  /** `s.strip()`. */
  function Strip(s: string): string
    decreases |s|
  {
    if s == [] then []
    else if IsSpace(s[0]) then Strip(s[1..])
    else if IsSpace(s[|s| - 1]) then Strip(s[..|s| - 1])
    else s
  }

  /** An unsigned decimal literal: one or more digits. */
  function ParseUnsigned(t: string): Option<nat> {
    if t != [] && AllDigits(t) then Some(DigitsValue(t)) else None
  }

  /** `int(s)` on ASCII text: surrounding white space, an optional sign,
      then one or more ASCII digits; `None` where Python raises
      `ValueError`. Python also accepts `_` between digits and non-ASCII
      decimal digits, which give `None` here. */
  function ParseInt(s: string): Option<int> {
    var t := Strip(s);
    if t != [] && (t[0] == '-' || t[0] == '+') then
      match ParseUnsigned(t[1..])
      case None => None
      case Some(v) =>
        var n: int := v;
        Some(if t[0] == '-' then -n else n)
    else
      match ParseUnsigned(t)
      case None => None
      case Some(v) => Some(v)
  }

  function DigitChar(d: nat): char
    requires d < 10
  {
    ('0' as int + d) as char
  }

  /** `str(n)` for a natural number. */
  function NatToString(n: nat): string
  {
    if n < 10 then [DigitChar(n)] else NatToString(n / 10) + [DigitChar(n % 10)]
  }

  /** `str(n)`. */
  function IntToString(n: int): string {
    if n < 0 then "-" + NatToString(-n) else NatToString(n)
  }

  // ---------------------------------------------------------------------
  // Printing and parsing integers

  lemma {:induction false} NatToStringDigits(n: nat)
    ensures NatToString(n) != [] && AllDigits(NatToString(n))
    ensures DigitsValue(NatToString(n)) == n
  {
    if n >= 10 {
      NatToStringDigits(n / 10);
      var s := NatToString(n);
      assert s[..|s| - 1] == NatToString(n / 10);
    }
  }

  lemma StripToken(t: string)
    requires IsToken(t)
    ensures Strip(t) == t
  {
  }

  /** `str(n)` is a single `split()` token: non-empty, no white space. */
  lemma IntToStringIsToken(n: int)
    ensures IsToken(IntToString(n))
    ensures '\t' !in IntToString(n) && '\n' !in IntToString(n)
  {
    var a := if n < 0 then -n else n;
    NatToStringDigits(a);
    var s := IntToString(n);
    forall k | 0 <= k < |s| ensures !IsSpace(s[k]) && s[k] != '\t' && s[k] != '\n' {
      if n < 0 && k > 0 {
        assert s[k] == NatToString(a)[k - 1];
      }
    }
  }

  /** Different numbers print differently. */
  lemma IntToStringInjective(a: int, b: int)
    requires a != b
    ensures IntToString(a) != IntToString(b)
  {
    ParseIntToString(a);
    ParseIntToString(b);
  }

  /** Parsing what `str` prints gives the number back: `int(str(n)) == n`. */
  lemma {:induction false} ParseIntToString(n: int)
    ensures ParseInt(IntToString(n)) == Some(n)
  {
    IntToStringIsToken(n);
    var s := IntToString(n);
    StripToken(s);
    if n < 0 {
      NatToStringDigits(-n);
      assert s[1..] == NatToString(-n);
    } else {
      NatToStringDigits(n);
    }
  }

  // ---------------------------------------------------------------------
  // Splitting what was joined

  /** `split()` reads a token followed by white space (or nothing) as that
      token and goes on after it. */
  lemma SplitWsToken(t: string, rest: string)
    requires IsToken(t)
    requires rest == [] || IsSpace(rest[0])
    ensures SplitWs(t + rest) == [t] + SplitWs(rest)
  {
    var s := t + rest;
    TokenLenAt(s, |t|);
    assert s[..|t|] == t;
    assert s[|t|..] == rest;
  }

  /** `split()` skips a leading separator. */
  lemma SplitWsSpace(c: char, rest: string)
    requires IsSpace(c)
    ensures SplitWs([c] + rest) == SplitWs(rest)
  {
    assert ([c] + rest)[1..] == rest;
  }

  /** `TokenLen` is the first space position (or the end). */
  lemma {:induction false} TokenLenAt(s: string, n: nat)
    requires n <= |s|
    requires forall k :: 0 <= k < n ==> !IsSpace(s[k])
    requires n < |s| ==> IsSpace(s[n])
    ensures TokenLen(s) == n
  {
    if n > 0 {
      TokenLenAt(s[1..], n - 1);
    }
  }

  /** `Find` is the first position of `c` (or the end). */
  lemma {:induction false} FindAt(s: string, c: char, i: nat)
    requires i <= |s|
    requires forall k :: 0 <= k < i ==> s[k] != c
    requires i < |s| ==> s[i] == c
    ensures Find(s, c) == i
  {
    if i > 0 {
      FindAt(s[1..], c, i - 1);
    }
  }

  /** `"\t".join(ts) + "\n"` splits on white space back into `ts`. */
  lemma {:induction false} SplitWsJoin(ts: seq<string>)
    requires forall i :: 0 <= i < |ts| ==> IsToken(ts[i])
    ensures SplitWs(Join(ts, '\t') + "\n") == ts
  {
    if ts == [] {
      assert SplitWs("\n") == SplitWs("");
    } else if |ts| == 1 {
      SplitWsToken(ts[0], "\n");
      assert SplitWs("\n") == SplitWs("");
    } else {
      var rest := Join(ts[1..], '\t') + "\n";
      SplitWsJoin(ts[1..]);
      assert Join(ts, '\t') + "\n" == ts[0] + (['\t'] + rest);
      SplitWsToken(ts[0], ['\t'] + rest);
      assert (['\t'] + rest)[1..] == rest;
    }
  }

  /** `s.split(sep)` on a field without `sep`, then `sep`, then more. */
  lemma SplitField(t: string, sep: char, rest: string)
    requires sep !in t
    ensures Split(t + [sep] + rest, sep) == [t] + Split(rest, sep)
  {
    var s := t + [sep] + rest;
    FindAt(s, sep, |t|);
    assert s[..|t|] == t;
    assert s[|t| + 1..] == rest;
  }

  /** `sep.join(ts).split(sep) == ts` when no field holds `sep` and there
      is at least one field. */
  lemma {:induction false} SplitJoin(ts: seq<string>, sep: char)
    requires |ts| >= 1
    requires forall i :: 0 <= i < |ts| ==> sep !in ts[i]
    ensures Split(Join(ts, sep), sep) == ts
  {
    if |ts| == 1 {
      FindAt(ts[0], sep, |ts[0]|);
    } else {
      SplitJoin(ts[1..], sep);
      SplitField(ts[0], sep, Join(ts[1..], sep));
    }
  }

  /** `sep.join(s.split(sep)) == s`: splitting loses nothing. */
  lemma {:induction false} JoinSplit(s: string, sep: char)
    ensures Join(Split(s, sep), sep) == s
    decreases |s|
  {
    var i := Find(s, sep);
    if i < |s| {
      var rest := Split(s[i + 1..], sep);
      assert Split(s, sep) == [s[..i]] + rest;
      JoinSplit(s[i + 1..], sep);
      JoinCons(s[..i], rest, sep);
      assert s == s[..i] + [sep] + s[i + 1..];
    }
  }

  /** Joining a field before at least one more puts `sep` between. */
  lemma JoinCons(t: string, rest: seq<string>, sep: char)
    requires rest != []
    ensures Join([t] + rest, sep) == t + [sep] + Join(rest, sep)
  {
    assert ([t] + rest)[1..] == rest;
  }

  /** A last field without `sep` is split off as the last field. */
  lemma {:induction false} SplitSnoc(s: string, sep: char, t: string)
    requires sep !in t
    ensures Split(s + [sep] + t, sep) == Split(s, sep) + [t]
    decreases |s|
  {
    FindAt(t, sep, |t|);
    var i := Find(s, sep);
    if i == |s| {
      SplitField(s, sep, t);
    } else {
      var head, tail := s[..i], s[i + 1..];
      assert s + [sep] + t == head + [sep] + (tail + [sep] + t);
      SplitField(head, sep, tail + [sep] + t);
      SplitSnoc(tail, sep, t);
    }
  }

  /** `"".join(s.split(sep))`: the text with every `sep` removed. */
  lemma {:induction false} ConcatSplit(s: string, sep: char)
    ensures Concat(Split(s, sep)) == Remove(s, sep)
    decreases |s|
  {
    var i := Find(s, sep);
    if i == |s| {
      RemoveNone(s, sep);
      assert Concat([s]) == s + Concat([]);
    } else {
      var head, tail := s[..i], s[i + 1..];
      var rest := Split(tail, sep);
      assert Split(s, sep) == [head] + rest;
      ConcatCons(head, rest);
      ConcatSplit(tail, sep);
      assert s == head + [sep] + tail;
      RemoveField(head, tail, sep);
    }
  }

  lemma ConcatCons(t: string, rest: seq<string>)
    ensures Concat([t] + rest) == t + Concat(rest)
  {
    assert ([t] + rest)[1..] == rest;
  }

  /** Removing `sep` after a field without it keeps the field. */
  lemma {:induction false} RemoveField(head: string, tail: string, sep: char)
    requires sep !in head
    ensures Remove(head + [sep] + tail, sep) == head + Remove(tail, sep)
  {
    var s := head + [sep] + tail;
    if head == [] {
      assert s[0] == sep && s[1..] == tail;
    } else {
      assert s[0] == head[0] != sep;
      assert s[1..] == head[1..] + [sep] + tail;
      RemoveField(head[1..], tail, sep);
      assert head == [head[0]] + head[1..];
    }
  }

  lemma {:induction false} RemoveNone(a: string, c: char)
    requires c !in a
    ensures Remove(a, c) == a
  {
    if a != [] {
      RemoveNone(a[1..], c);
    }
  }

  // ---------------------------------------------------------------------
  // Lines

  /** Reading a file line by line yields the whole file back. */
  lemma {:induction false} ConcatLines(s: string)
    ensures Concat(Lines(s)) == s
    decreases |s|
  {
    if s != [] {
      var i := Find(s, '\n');
      if i == |s| {
        assert Concat([s]) == s + Concat([]);
      } else {
        ConcatLines(s[i + 1..]);
        assert s == s[..i + 1] + s[i + 1..];
      }
    }
  }

  /** One `readline()` takes the first line off. */
  lemma LinesNext(s: string)
    requires s != []
    ensures Find(s, '\n') == |s| ==> |Lines(s)| == 1
    ensures Find(s, '\n') < |s| ==> |Lines(s)| == 1 + |Lines(s[Find(s, '\n') + 1..])|
  {
  }

  /** Number of `readline()` results: one per newline, plus one for text
      after the last newline. */
  lemma {:induction false} LinesCount(s: string)
    ensures |Lines(s)| == Count(s, '\n') + (if s != [] && s[|s| - 1] != '\n' then 1 else 0)
    decreases |s|
  {
    if s != [] {
      var i := Find(s, '\n');
      if i < |s| {
        var tail := s[i + 1..];
        CountLine(s, i);
        LinesCount(tail);
        if tail != [] {
          assert tail[|tail| - 1] == s[|s| - 1];
        }
      } else {
        CountNone(s, '\n');
      }
    }
  }

  /** The newline at `i`, the first one, is the only one up to `i`. */
  lemma CountLine(s: string, i: nat)
    requires i < |s| && s[i] == '\n' && forall k :: 0 <= k < i ==> s[k] != '\n'
    ensures Count(s, '\n') == 1 + Count(s[i + 1..], '\n')
  {
    var head, tail := s[..i + 1], s[i + 1..];
    assert s == head + tail;
    CountSplit(head, tail, '\n');
    assert head == s[..i] + ['\n'];
    CountSplit(s[..i], ['\n'], '\n');
    CountNone(s[..i], '\n');
    assert Count(['\n'], '\n') == 1;
  }

  lemma {:induction false} CountSplit(a: string, b: string, c: char)
    ensures Count(a + b, c) == Count(a, c) + Count(b, c)
  {
    if a != [] {
      CountSplit(a[1..], b, c);
      assert (a + b)[1..] == a[1..] + b;
    } else {
      assert a + b == b;
    }
  }

  lemma {:induction false} CountNone(a: string, c: char)
    requires forall k :: 0 <= k < |a| ==> a[k] != c
    ensures Count(a, c) == 0
  {
    if a != [] {
      CountNone(a[1..], c);
    }
  }
}
