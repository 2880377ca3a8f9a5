/** Python's text operations the program relies on: `str(int)`, `int(str)`, `split`, `join`, `strip`. */
module Text {
  import opened Wrappers

  // ---------- Decimal numbers ----------

  predicate IsDigit(c: char) {
    '0' <= c <= '9'
  }

  function DigitOf(d: nat): (c: char)
    requires d < 10
    ensures IsDigit(c)
  {
    '0' + d as char
  }

  function DigitValue(c: char): (d: nat)
    requires IsDigit(c)
    ensures d < 10
  {
    c as int - '0' as int
  }

  function PrintNat(n: nat): (s: string)
    ensures |s| > 0 && forall i :: 0 <= i < |s| ==> IsDigit(s[i])
  {
    if n < 10 then [DigitOf(n)] else PrintNat(n / 10) + [DigitOf(n % 10)]
  }

  function PrintInt(n: int): (s: string)
    ensures |s| > 0 && forall i :: 0 <= i < |s| ==> IsDigit(s[i]) || s[i] == '-'
  {
    if n < 0 then "-" + PrintNat(-n) else PrintNat(n)
  }

  function ParseNat(s: string): Option<nat> {
    if s == [] || !IsDigit(s[|s| - 1]) then None
    else if |s| == 1 then Some(DigitValue(s[0]))
    else
      match ParseNat(s[..|s| - 1])
      case None => None
      case Some(n) => Some(10 * n + DigitValue(s[|s| - 1]))
  }

  predicate IsSpace(c: char) {
    c in {' ', '\t', '\n', '\r', '\U{0B}', '\U{0C}'}
  }

  function Strip(s: string): string {
    if s != [] && IsSpace(s[0]) then Strip(s[1..])
    else if s != [] && IsSpace(s[|s| - 1]) then Strip(s[..|s| - 1])
    else s
  }

  /** `int(text)` on plain decimal text; None stands for ValueError. */
  function ParseInt(text: string): Option<int> {
    var s := Strip(text);
    var signed := s != [] && s[0] in {'-', '+'};
    var digits := ParseNat(if signed then s[1..] else s);
    if digits.None? then None
    else
      var n: int := digits.value;
      if signed && s[0] == '-' then Some(-n) else Some(n)
  }

  lemma {:induction false} ParseNatPrintNat(n: nat)
    ensures ParseNat(PrintNat(n)) == Some(n)
  {
    if n >= 10 {
      ParseNatPrintNat(n / 10);
      var s := PrintNat(n);
      assert s[..|s| - 1] == PrintNat(n / 10);
    }
  }

  /** Exactly the non-empty runs of digits are read, and leading zeros do not matter. */
  lemma {:induction false} ParseNatExactly(s: string)
    ensures ParseNat(s).Some? <==> s != [] && forall i :: 0 <= i < |s| ==> IsDigit(s[i])
    ensures s != [] ==> ParseNat("0" + s) == ParseNat(s)
    decreases |s|
  {
    if |s| > 1 {
      var n := |s| - 1;
      ParseNatExactly(s[..n]);
      assert ("0" + s)[..n + 1] == "0" + s[..n];
    } else if |s| == 1 {
      assert ("0" + s)[..1] == "0";
    }
  }

  lemma StripKeeps(s: string)
    requires s == [] || (!IsSpace(s[0]) && !IsSpace(s[|s| - 1]))
    ensures Strip(s) == s
  {
  }

  predicate AllSpaces(s: string) {
    forall i :: 0 <= i < |s| ==> IsSpace(s[i])
  }

  /** Stripping takes all white space off both ends and nothing else. */
  lemma {:induction false} StripDecomposes(s: string) returns (left: string, right: string)
    ensures s == left + Strip(s) + right && AllSpaces(left) && AllSpaces(right)
    ensures Strip(s) != [] ==> !IsSpace(Strip(s)[0]) && !IsSpace(Strip(s)[|Strip(s)| - 1])
    decreases |s|
  {
    left, right := [], [];
    if s != [] && IsSpace(s[0]) {
      left, right := StripDecomposes(s[1..]);
      assert s == [s[0]] + s[1..];
      left := [s[0]] + left;
    } else if s != [] && IsSpace(s[|s| - 1]) {
      left, right := StripDecomposes(s[..|s| - 1]);
      assert s == s[..|s| - 1] + [s[|s| - 1]];
      right := right + [s[|s| - 1]];
    }
  }

  /** `int(str(n)) == n` for every integer. */
  lemma ParseIntPrintInt(n: int)
    ensures ParseInt(PrintInt(n)) == Some(n)
  {
    var s := PrintInt(n);
    assert forall i :: 0 <= i < |s| ==> !IsSpace(s[i]);
    StripKeeps(s);
    if n < 0 {
      assert s[1..] == PrintNat(-n);
      ParseNatPrintNat(-n);
    } else {
      ParseNatPrintNat(n);
    }
  }

  /** A decimal number with or without a sign. */
  ghost predicate Numeral(s: string, n: int) {
    || (ParseNat(s).Some? && ParseNat(s).value == n)
    || (s != [] && s[0] == '+' && ParseNat(s[1..]).Some? && ParseNat(s[1..]).value == n)
    || (s != [] && s[0] == '-' && ParseNat(s[1..]).Some? && ParseNat(s[1..]).value == -n)
  }

  /** Exactly the decimal numbers are read, whatever white space stands around them. */
  lemma ParseIntExactly(left: string, s: string, right: string, n: int)
    requires AllSpaces(left) && AllSpaces(right)
    ensures Numeral(s, n) ==> ParseInt(left + s + right) == Some(n)
    ensures ParseInt(s) == Some(n) ==> Numeral(Strip(s), n)
  {
    hide Strip;
    ParseNatExactly(s);
    ParseNatExactly(Strip(s));
    if s != [] {
      ParseNatExactly(s[1..]);
    }
    if Numeral(s, n) {
      StripAround(left, s, right);
    }
  }

  lemma {:induction false} StripAround(left: string, s: string, right: string)
    requires AllSpaces(left) && AllSpaces(right) && s != [] && !IsSpace(s[0]) && !IsSpace(s[|s| - 1])
    ensures Strip(left + s + right) == s
    decreases |left| + |right|
  {
    var t := left + s + right;
    if left != [] {
      assert t[1..] == left[1..] + s + right;
      StripAround(left[1..], s, right);
    } else if right != [] {
      assert t[..|t| - 1] == left + s + right[..|right| - 1];
      StripAround(left, s, right[..|right| - 1]);
    } else {
      assert t == s;
    }
  }

  lemma PrintIntInjective(m: int, n: int)
    requires PrintInt(m) == PrintInt(n)
    ensures m == n
  {
    ParseIntPrintInt(m);
    ParseIntPrintInt(n);
  }

  // ---------- Splitting and joining ----------

  predicate Free(s: string, c: char) {
    forall i :: 0 <= i < |s| ==> s[i] != c
  }

  /** `s.split(c)`. */
  function Split(s: string, c: char): (parts: seq<string>)
    ensures |parts| > 0
  {
    if s == [] then [[]]
    else
      var rest := Split(s[1..], c);
      if s[0] == c then [[]] + rest else [[s[0]] + rest[0]] + rest[1..]
  }

  /** `c.join(parts)`. */
  function Join(parts: seq<string>, c: char): string {
    if parts == [] then []
    else if |parts| == 1 then parts[0]
    else parts[0] + [c] + Join(parts[1..], c)
  }

  lemma {:induction false} SplitFree(s: string, c: char)
    requires Free(s, c)
    ensures Split(s, c) == [s]
  {
    if s != [] {
      SplitFree(s[1..], c);
      assert [s[0]] + s[1..] == s;
    }
  }

  lemma {:induction false} SplitAppend(s: string, c: char, t: string)
    requires Free(s, c)
    ensures Split(s + [c] + t, c) == [s] + Split(t, c)
    decreases |s|
  {
    var w := s + [c] + t;
    if s == [] {
      assert w[1..] == t;
    } else {
      assert w[1..] == s[1..] + [c] + t;
      SplitAppend(s[1..], c, t);
      assert [s[0]] + s[1..] == s;
      assert Split(w, c) == [[s[0]] + s[1..]] + Split(t, c);
    }
  }

  /** Splitting a joined text recovers the parts, provided none contains the separator. */
  lemma {:induction false} SplitJoin(parts: seq<string>, c: char)
    requires |parts| > 0 && forall i :: 0 <= i < |parts| ==> Free(parts[i], c)
    ensures Split(Join(parts, c), c) == parts
    decreases |parts|
  {
    if |parts| == 1 {
      SplitFree(parts[0], c);
    } else {
      SplitJoin(parts[1..], c);
      SplitAppend(parts[0], c, Join(parts[1..], c));
    }
  }

  lemma SplitCons(x: char, s: string, c: char)
    ensures var rest := Split(s, c);
            Split([x] + s, c) == if x == c then [[]] + rest else [[x] + rest[0]] + rest[1..]
  {
    assert ([x] + s)[1..] == s;
  }

  lemma HeadsAgree(head: string, rest: seq<string>, more: seq<string>)
    requires |rest| > 0
    ensures [head] + (rest + more) == [head] + rest + more
    ensures (rest + more)[0] == rest[0] && [head] + (rest + more)[1..] == [head] + rest[1..] + more
  {
  }

  /** A separator splits wherever it stands. */
  lemma {:induction false} SplitConcat(s: string, c: char, t: string)
    ensures Split(s + [c] + t, c) == Split(s, c) + Split(t, c)
    decreases |s|
  {
    if s == [] {
      assert s + [c] + t == [c] + t;
      SplitCons(c, t, c);
    } else {
      hide Split;
      var x, tail := s[0], s[1..];
      SplitConcat(tail, c, t);
      assert s == [x] + tail && s + [c] + t == [x] + (tail + [c] + t);
      SplitCons(x, tail, c);
      SplitCons(x, tail + [c] + t, c);
      HeadsAgree([], Split(tail, c), Split(t, c));
      HeadsAgree([x] + Split(tail, c)[0], Split(tail, c), Split(t, c));
    }
  }

  /** Text without the separator only lengthens the first part. */
  lemma {:induction false} SplitAfterFree(s: string, t: string, c: char)
    requires Free(s, c)
    ensures Split(s + t, c) == [s + Split(t, c)[0]] + Split(t, c)[1..]
    decreases |s|
  {
    var parts := Split(t, c);
    if s == [] {
      assert s + t == t && s + parts[0] == parts[0];
      assert [parts[0]] + parts[1..] == parts;
    } else {
      assert (s + t)[1..] == s[1..] + t;
      SplitAfterFree(s[1..], t, c);
      assert [s[0]] + (s[1..] + parts[0]) == s + parts[0];
    }
  }

  /** `s.split(c, 1)`: the text before and after the first separator, None if there is none. */
  function SplitOnce(s: string, c: char): Option<(string, string)> {
    if s == [] then None
    else if s[0] == c then Some(([], s[1..]))
    else
      match SplitOnce(s[1..], c)
      case None => None
      case Some(p) => Some(([s[0]] + p.0, p.1))
  }

  lemma {:induction false} SplitOnceAppend(s: string, c: char, t: string)
    requires Free(s, c)
    ensures SplitOnce(s + [c] + t, c) == Some((s, t))
    decreases |s|
  {
    var w := s + [c] + t;
    if s == [] {
      assert w[1..] == t;
    } else {
      assert w[1..] == s[1..] + [c] + t;
      SplitOnceAppend(s[1..], c, t);
      assert [s[0]] + s[1..] == s;
    }
  }

  lemma {:induction false} NoSplit(s: string, c: char)
    requires Free(s, c)
    ensures SplitOnce(s, c).None?
  {
    if s != [] {
      NoSplit(s[1..], c);
    }
  }

  lemma {:induction false} NoSeparator(s: string, c: char)
    requires SplitOnce(s, c).None?
    ensures Free(s, c)
  {
    if s != [] {
      NoSeparator(s[1..], c);
    }
  }

  lemma {:induction false} SplitOnceParts(s: string, c: char)
    requires SplitOnce(s, c).Some?
    ensures var (before, behind) := SplitOnce(s, c).value; Free(before, c) && s == before + [c] + behind
  {
    if s[0] != c {
      SplitOnceParts(s[1..], c);
      assert s == [s[0]] + s[1..];
    } else {
      assert s == [] + [c] + s[1..];
    }
  }

  // ---------- Words ----------

  predicate SpaceFree(s: string) {
    forall i :: 0 <= i < |s| ==> !IsSpace(s[i])
  }

  function DropSpaces(s: string): string {
    if s != [] && IsSpace(s[0]) then DropSpaces(s[1..]) else s
  }

  /** The leading run of non-space characters. */
  function FirstWord(s: string): string {
    if s == [] || IsSpace(s[0]) then [] else [s[0]] + FirstWord(s[1..])
  }

  function AfterFirstWord(s: string): string {
    if s == [] || IsSpace(s[0]) then s else AfterFirstWord(s[1..])
  }

  /** `s.split()[1]` for a text that starts with a word; empty when there is no second word. */
  function SecondWord(s: string): string {
    FirstWord(DropSpaces(AfterFirstWord(DropSpaces(s))))
  }

  lemma {:induction false} FirstWordAppend(w: string, t: string)
    requires SpaceFree(w) && (t == [] || IsSpace(t[0]))
    ensures FirstWord(w + t) == w && AfterFirstWord(w + t) == t
  {
    if w == [] {
      assert w + t == t;
    } else {
      assert (w + t)[1..] == w[1..] + t;
      FirstWordAppend(w[1..], t);
    }
  }

  /** A verb, a space and a space-free name, then anything after a space: the name is the second word. */
  lemma SecondWordOf(verb: string, name: string, tail: string)
    requires verb != [] && SpaceFree(verb) && name != [] && SpaceFree(name)
    requires tail == [] || IsSpace(tail[0])
    ensures SecondWord(verb + " " + name + tail) == name
  {
    var s := verb + " " + name + tail;
    assert s == verb + (" " + name + tail);
    FirstWordAppend(verb, " " + name + tail);
    assert DropSpaces(s) == s;
    assert (" " + name + tail)[1..] == name + tail;
    assert DropSpaces(" " + name + tail) == name + tail;
    FirstWordAppend(name, tail);
  }
}
