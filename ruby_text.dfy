/** Ruby string, array and range primitives that the widget code relies on,
    with the edge cases Ruby gives them (negative indices, nil results,
    trailing empty fields dropped by `split`). */
module RubyText {

  datatype Option<+T> = None | Some(value: T)

  /** The exceptions the widget code can raise, named by their cause. */
  datatype Fault =
    | NegativeRepeat   // `str * n` with a negative `n` (ArgumentError)
    | BorderCharSize   // `repaint_border`'s own check on `border_char`
    | NilReceiver      // a method called on `nil` (NoMethodError)
    | WrapWidth        // the wrapping regex `/.{1,w}/` built with `w < 1`
    | NotImplemented   // `Node#focused?`
    | UndefinedMethod  // a method the receiver does not define (NoMethodError)
    | IllegalPosition  // `position=` given a value other than relative or absolute

  datatype Result<+T> = Ok(value: T) | Err(fault: Fault)

  /** `TAB_WIDTH` of TextBox and TextField. */
  const TabWidth: nat := 2

  /** Number of occurrences of `c` in `s`. */
  function Count(s: string, c: char): (n: nat)
    ensures n <= |s|
    ensures n == 0 <==> c !in s
  {
    if s == [] then 0
    else (if s[0] == c then 1 else 0) + Count(s[1..], c)
  }

  lemma {:induction false} CountConcat(a: string, b: string, c: char)
    ensures Count(a + b, c) == Count(a, c) + Count(b, c)
  {
    if a != [] {
      assert (a + b)[0] == a[0] && (a + b)[1..] == a[1..] + b;
      CountConcat(a[1..], b, c);
    } else {
      assert a + b == b;
    }
  }

  /** `s.gsub("\t", ' ' * TAB_WIDTH)`: every tab becomes two spaces. */
  function ExpandTabs(s: string): (r: string)
    ensures |r| == |s| + Count(s, '\t')
    ensures '\t' !in r
    ensures forall c :: c in r ==> c in s || c == ' '
  {
    if s == [] then []
    else (if s[0] == '\t' then "  " else [s[0]]) + ExpandTabs(s[1..])
  }

  lemma {:induction false} ExpandTabsConcat(a: string, b: string)
    ensures ExpandTabs(a + b) == ExpandTabs(a) + ExpandTabs(b)
  {
    if a != [] {
      assert (a + b)[0] == a[0] && (a + b)[1..] == a[1..] + b;
      ExpandTabsConcat(a[1..], b);
    } else {
      assert a + b == b;
    }
  }

  /** Replaces every occurrence of `c` by `d` (`gsub` of one character by one). */
  function ReplaceChar(s: string, c: char, d: char): (r: string)
    ensures |r| == |s|
    ensures forall i :: 0 <= i < |s| ==> r[i] == if s[i] == c then d else s[i]
  {
    if s == [] then [] else [if s[0] == c then d else s[0]] + ReplaceChar(s[1..], c, d)
  }

  /** `c.to_s * n`: `n` copies of `c`; Ruby raises ArgumentError for `n < 0`. */
  function Repeat(c: char, n: int): (r: Result<string>)
    ensures r.Err? <==> n < 0
    ensures r.Err? ==> r.fault == NegativeRepeat
    ensures r.Ok? ==> |r.value| == n && forall i :: 0 <= i < |r.value| ==> r.value[i] == c
  {
    if n < 0 then Err(NegativeRepeat) else Ok(seq(n, _ => c))
  }

  /** The fields of `s` between newlines, empty ones included
      (what `split("\n", -1)` would give). */
  function Fields(s: string): (r: seq<string>)
    ensures |r| == Count(s, '\n') + 1
    ensures forall i :: 0 <= i < |r| ==> '\n' !in r[i]
  {
    if s == [] then [[]]
    else
      var rest := Fields(s[1..]);
      if s[0] == '\n' then [[]] + rest
      else [[s[0]] + rest[0]] + rest[1..]
  }

  /** Text without a newline is a single field. */
  lemma {:induction false} FieldsWithoutNewline(s: string)
    requires '\n' !in s
    ensures Fields(s) == [s]
  {
    if s != [] {
      FieldsWithoutNewline(s[1..]);
      assert [s[0]] + s[1..] == s;
    }
  }

  /** Text without a tab is left as it is by the tab expansion. */
  lemma {:induction false} ExpandTabsWithoutTab(s: string)
    requires '\t' !in s
    ensures ExpandTabs(s) == s
  {
    if s != [] {
      ExpandTabsWithoutTab(s[1..]);
      assert [s[0]] + s[1..] == s;
    }
  }

  /** Joins lines with a newline between each two. */
  function JoinLines(ls: seq<string>): string
  {
    if ls == [] then []
    else if |ls| == 1 then ls[0]
    else ls[0] + "\n" + JoinLines(ls[1..])
  }

  /** Cutting at newlines loses nothing: the fields join back to `s`. */
  lemma {:induction false} JoinFields(s: string)
    ensures JoinLines(Fields(s)) == s
  {
    if s != [] {
      var rest := Fields(s[1..]);
      JoinFields(s[1..]);
      if s[0] == '\n' {
        JoinEmptyFirst(rest);
        assert s == "\n" + s[1..];
      } else {
        JoinExtendFirst(s[0], rest);
        assert s == [s[0]] + s[1..];
      }
    }
  }

  /** An empty first line contributes only its newline. */
  lemma JoinEmptyFirst(ls: seq<string>)
    requires ls != []
    ensures JoinLines([[]] + ls) == "\n" + JoinLines(ls)
  {
    assert ([[]] + ls)[1..] == ls;
  }

  /** A character put in front of the first line comes first in the join. */
  lemma JoinExtendFirst(c: char, ls: seq<string>)
    requires ls != []
    ensures JoinLines([[c] + ls[0]] + ls[1..]) == [c] + JoinLines(ls)
  {
    var m := [[c] + ls[0]] + ls[1..];
    assert m[1..] == ls[1..];
  }

  /** `ls` with its trailing empty strings removed. */
  function DropTrailingEmpty(ls: seq<string>): (r: seq<string>)
    ensures |r| <= |ls| && r == ls[..|r|]
    ensures r == [] || r[|r| - 1] != []
    ensures forall i :: |r| <= i < |ls| ==> ls[i] == []
  {
    if ls == [] then []
    else if ls[|ls| - 1] == [] then DropTrailingEmpty(ls[..|ls| - 1])
    else ls
  }

  /** `s.split("\n")`: the fields between newlines, Ruby dropping the
      trailing empty ones (so `"".split("\n") == []` and
      `"a\n\nb\n\n".split("\n") == ["a", "", "b"]`). */
  function SplitLines(s: string): (r: seq<string>)
    ensures forall i :: 0 <= i < |r| ==> '\n' !in r[i]
    ensures r == [] || r[|r| - 1] != []
  {
    DropTrailingEmpty(Fields(s))
  }

  /** Splitting keeps every character other than the newlines, in order:
      the lines, joined back, give `s` without its trailing newlines. */
  lemma SplitLinesPrefix(s: string)
    ensures var r := SplitLines(s);
      JoinLines(r) + Newlines(|Fields(s)| - |r| - (if r == [] then 1 else 0)) == s
  {
    var f := Fields(s);
    var r := DropTrailingEmpty(f);
    JoinFields(s);
    DropTrailingEmptySplit(f);
    JoinTrailingEmpty(r, |f| - |r|);
  }

  /** `n` newline characters. */
  function Newlines(n: nat): string
  {
    if n == 0 then [] else "\n" + Newlines(n - 1)
  }

  /** `k` empty strings. */
  function Empties(k: nat): (r: seq<string>)
    ensures |r| == k && forall i :: 0 <= i < k ==> r[i] == []
  {
    if k == 0 then [] else [[]] + Empties(k - 1)
  }

  /** A sequence is its trimmed part followed by the empty strings trimmed. */
  lemma DropTrailingEmptySplit(ls: seq<string>)
    ensures ls == DropTrailingEmpty(ls) + Empties(|ls| - |DropTrailingEmpty(ls)|)
  {
    var r := DropTrailingEmpty(ls);
    var t := r + Empties(|ls| - |r|);
    forall i | 0 <= i < |ls|
      ensures t[i] == ls[i]
    {
      if i < |r| {
        assert t[i] == r[i];
      }
    }
  }

  lemma {:induction false} JoinEmpties(k: nat)
    requires k > 0
    ensures JoinLines(Empties(k)) == Newlines(k - 1)
  {
    if k > 1 {
      JoinEmpties(k - 1);
      assert Empties(k)[1..] == Empties(k - 1);
    }
  }

  lemma {:induction false} JoinTrailingEmpty(r: seq<string>, k: nat)
    ensures JoinLines(r + Empties(k)) ==
      JoinLines(r) + Newlines(k - (if r == [] && k > 0 then 1 else 0))
    decreases |r|
  {
    var t := r + Empties(k);
    if r == [] {
      assert t == Empties(k);
      if k > 0 {
        JoinEmpties(k);
      }
    } else if |r| == 1 {
      if k > 0 {
        JoinEmpties(k);
        assert t[1..] == Empties(k);
        assert JoinLines(t) == r[0] + "\n" + JoinLines(t[1..]);
      } else {
        assert t == r;
      }
    } else {
      JoinTrailingEmpty(r[1..], k);
      assert t[1..] == r[1..] + Empties(k);
    }
  }

  /** Ruby's reading of a range `b..e` (or `b...e` when `exclusive`) against a
      receiver of length `len`: the start and the count of the selected
      elements, or `None` where Ruby answers `nil`. Negative bounds count
      from the end; a start beyond the end is `nil`; an end beyond the end
      is cut back to it. */
  function RangeSpan(len: nat, b: int, e: int, exclusive: bool): (r: Option<(nat, nat)>)
    ensures r.None? <==> b < -(len as int) || b > len
    ensures r.Some? ==> r.value.0 + r.value.1 <= len
    ensures r.Some? && 0 <= b ==> r.value.0 == b
    ensures r.Some? && 0 <= b <= e && !exclusive ==>
      r.value.1 == (if e + 1 <= len then e + 1 else len) - b
  {
    var beg := if b < 0 then b + len else b;
    if beg < 0 || beg > len then None
    else
      var e0 := if e < 0 then e + len else e;
      var e1 := if exclusive then e0 else e0 + 1;
      var stop := if e1 > len then len else e1;
      Some((beg, if stop < beg then 0 else stop - beg))
  }

  /** `s[b..e]` (inclusive) or `s[b...e]` (exclusive). */
  function Slice<T>(s: seq<T>, b: int, e: int, exclusive: bool): (r: Option<seq<T>>)
    ensures r.None? <==> b < -|s| || b > |s|
    ensures r.Some? ==> |r.value| <= |s|
    ensures 0 <= b <= |s| && 0 <= e && b <= e + 1 && !exclusive ==>
      r == Some(s[b..if e + 1 <= |s| then e + 1 else |s|])
  {
    match RangeSpan(|s|, b, e, exclusive)
    case None => None
    case Some(span) => Some(s[span.0..span.0 + span.1])
  }

  /** `s[b..]`: the endless range. */
  function SliceFrom<T>(s: seq<T>, b: int): (r: Option<seq<T>>)
    ensures 0 <= b <= |s| ==> r == Some(s[b..])
    ensures -|s| <= b < 0 ==> r == Some(s[|s| + b..])
    ensures b < -|s| || b > |s| ==> r.None?
  {
    var beg := if b < 0 then b + |s| else b;
    if beg < 0 || beg > |s| then None else Some(s[beg..])
  }

  /** `s[i]` on a string: the one-character string there, `nil` outside. */
  function CharAt(s: string, i: int): (r: Option<string>)
    ensures 0 <= i < |s| ==> r == Some([s[i]])
    ensures i >= |s| || i < -|s| ==> r.None?
  {
    var k := if i < 0 then i + |s| else i;
    if 0 <= k < |s| then Some([s[k]]) else None
  }

  /** The text a Pastel painter writes for a value: `nil` paints as "". */
  function OrEmpty(o: Option<string>): string
  {
    match o
    case None => []
    case Some(t) => t
  }
}
