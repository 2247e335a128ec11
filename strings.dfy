/**
 * Python string helpers used by every stage: `str.strip`, `startswith`,
 * `endswith`, `in`, `replace(p, "")`, `sep.join` and `split(sep)`.
 */
module Strings {

  /** Python's `str.isspace()`; the `\s` class of `re` on str patterns is the same set. */
  predicate IsSpace(c: char) {
    || ('\t' <= c <= '\r')
    || ('\U{1C}' <= c <= '\U{1F}')
    || c == ' '
    || c == '\U{85}'
    || c == '\U{A0}'
    || c == '\U{1680}'
    || ('\U{2000}' <= c <= '\U{200A}')
    || c == '\U{2028}'
    || c == '\U{2029}'
    || c == '\U{202F}'
    || c == '\U{205F}'
    || c == '\U{3000}'
  }

  predicate AllSpace(s: string) {
    forall i :: 0 <= i < |s| ==> IsSpace(s[i])
  }

  /** A string `strip()` leaves as it is. */
  predicate IsTrimmed(s: string) {
    s == [] || (!IsSpace(s[0]) && !IsSpace(s[|s| - 1]))
  }

  /** `s.lstrip()` */
  function TrimLeft(s: string): (r: string)
    ensures |r| <= |s|
    ensures r == [] || !IsSpace(r[0])
  {
    if s == [] || !IsSpace(s[0]) then s else TrimLeft(s[1..])
  }

  /** `s.rstrip()` */
  function TrimRight(s: string): (r: string)
    ensures |r| <= |s| && r == s[..|r|]
    ensures r == [] || !IsSpace(r[|r| - 1])
  {
    if s == [] || !IsSpace(s[|s| - 1]) then s else TrimRight(s[..|s| - 1])
  }

  /** `s.strip()`: the longest infix of `s` that neither starts nor ends with white space. */
  function Trim(s: string): string {
    TrimRight(TrimLeft(s))
  }

  lemma TrimIsTrimmed(s: string)
    ensures IsTrimmed(Trim(s)) && |Trim(s)| <= |s|
  {
    var l := TrimLeft(s);
    TrimLeftSuffix(s);
    if Trim(s) != [] {
      assert Trim(s)[0] == l[0];
    }
  }

  /** What `lstrip` leaves is a suffix of its input. */
  lemma {:induction false} TrimLeftSuffix(s: string)
    ensures TrimLeft(s) == s[|s| - |TrimLeft(s)|..]
  {
    if s != [] && IsSpace(s[0]) {
      TrimLeftSuffix(s[1..]);
    }
  }

  /** Every character `strip` keeps comes from its input. */
  lemma TrimChars(s: string)
    ensures forall c :: c in Trim(s) ==> c in s
  {
    var l := TrimLeft(s);
    TrimLeftSuffix(s);
    assert forall c :: c in TrimRight(l) ==> c in l;
    assert forall c :: c in l ==> c in s;
  }

  /** What `lstrip` drops is white space. */
  lemma {:induction false} TrimLeftDropsSpace(s: string)
    ensures AllSpace(s[..|s| - |TrimLeft(s)|])
  {
    if s != [] && IsSpace(s[0]) {
      TrimLeftDropsSpace(s[1..]);
      var d := s[..|s| - |TrimLeft(s)|];
      var d' := s[1..][..|s| - 1 - |TrimLeft(s)|];
      assert forall i :: 1 <= i < |d| ==> d[i] == d'[i - 1];
    }
  }

  /** What `rstrip` drops is white space. */
  lemma {:induction false} TrimRightDropsSpace(s: string)
    ensures AllSpace(s[|TrimRight(s)|..])
  {
    if s != [] && IsSpace(s[|s| - 1]) {
      var u := s[..|s| - 1];
      TrimRightDropsSpace(u);
      var d := s[|TrimRight(s)|..];
      assert forall i :: 0 <= i < |d| - 1 ==> d[i] == u[|TrimRight(u)|..][i];
    }
  }

  lemma TrimLeftOfTrimmed(s: string)
    requires s == [] || !IsSpace(s[0])
    ensures TrimLeft(s) == s
  {}

  lemma TrimRightOfTrimmed(s: string)
    requires s == [] || !IsSpace(s[|s| - 1])
    ensures TrimRight(s) == s
  {}

  /** Stripping twice strips nothing more. */
  lemma TrimIdempotent(s: string)
    ensures Trim(Trim(s)) == Trim(s)
  {
    var t := Trim(s);
    TrimIsTrimmed(s);
    TrimLeftOfTrimmed(t);
    TrimRightOfTrimmed(t);
  }

  /** Stripping a string that starts with a non-space character only strips its right end. */
  lemma {:induction false} TrimKeepsHead(s: string)
    requires s != [] && !IsSpace(s[0])
    ensures Trim(s) == TrimRight(s) && Trim(s) != [] && Trim(s)[0] == s[0]
  {
    TrimLeftOfTrimmed(s);
    TrimRightKeepsHead(s);
  }

  lemma {:induction false} TrimRightKeepsHead(s: string)
    requires s != [] && !IsSpace(s[0])
    ensures TrimRight(s) != [] && TrimRight(s)[0] == s[0]
  {
    if IsSpace(s[|s| - 1]) {
      assert |s| > 1;
      TrimRightKeepsHead(s[..|s| - 1]);
    }
  }

  /** Left-stripping `w + t` where `w` is all space drops `w` and strips `t`. */
  lemma {:induction false} TrimLeftSpacePrefix(w: string, t: string)
    requires AllSpace(w)
    ensures TrimLeft(w + t) == TrimLeft(t)
  {
    if w != [] {
      assert (w + t)[0] == w[0];
      assert IsSpace(w[0]);
      assert (w + t)[1..] == w[1..] + t;
      var u := w[1..];
      assert AllSpace(u) by {
        forall i | 0 <= i < |u| ensures IsSpace(u[i]) {
          assert u[i] == w[i + 1];
        }
      }
      TrimLeftSpacePrefix(w[1..], t);
      assert TrimLeft(w + t) == TrimLeft((w + t)[1..]);
    } else {
      assert w + t == t;
    }
  }

  /** Right-stripping `t + w` where `w` is all space drops `w` and strips `t`. */
  lemma {:induction false} TrimRightSpaceSuffix(t: string, w: string)
    requires AllSpace(w)
    ensures TrimRight(t + w) == TrimRight(t)
  {
    if w != [] {
      assert (t + w)[|t + w| - 1] == w[|w| - 1];
      assert IsSpace(w[|w| - 1]);
      assert (t + w)[..|t + w| - 1] == t + w[..|w| - 1];
      var u := w[..|w| - 1];
      assert AllSpace(u) by {
        forall i | 0 <= i < |u| ensures IsSpace(u[i]) {
          assert u[i] == w[i];
        }
      }
      TrimRightSpaceSuffix(t, w[..|w| - 1]);
      assert TrimRight(t + w) == TrimRight((t + w)[..|t + w| - 1]);
    } else {
      assert t + w == t;
    }
  }

  /** Right-stripping `p + t` keeps the prefix `p` when `t` holds a non-space character. */
  lemma {:induction false} TrimRightAfterPrefix(p: string, t: string)
    requires TrimRight(t) != []
    ensures TrimRight(p + t) == p + TrimRight(t)
  {
    if t != [] && IsSpace(t[|t| - 1]) {
      assert (p + t)[..|p + t| - 1] == p + t[..|t| - 1];
      TrimRightAfterPrefix(p, t[..|t| - 1]);
    }
  }

  /** Left-stripping a string with a non-space character ignores what follows it. */
  lemma {:induction false} TrimLeftAppend(s: string, w: string)
    requires TrimLeft(s) != []
    ensures TrimLeft(s + w) == TrimLeft(s) + w
  {
    if IsSpace(s[0]) {
      assert (s + w)[1..] == s[1..] + w;
      TrimLeftAppend(s[1..], w);
    }
  }

  /** Right-stripping keeps every character up to the last non-space one. */
  lemma {:induction false} TrimRightKeeps(s: string, i: nat)
    requires i < |s| && !IsSpace(s[i])
    ensures i < |TrimRight(s)|
  {
    if IsSpace(s[|s| - 1]) {
      TrimRightKeeps(s[..|s| - 1], i);
    }
  }

  /** A line break at the end changes nothing once the line is stripped. */
  lemma TrimNewline(s: string)
    ensures Trim(s + "\n") == Trim(s)
  {
    assert AllSpace("\n");
    if TrimLeft(s) != [] {
      TrimLeftAppend(s, "\n");
      TrimRightSpaceSuffix(TrimLeft(s), "\n");
    } else {
      TrimLeftDropsSpace(s);
      assert s[..|s|] == s;
      TrimLeftSpacePrefix(s, "\n");
      TrimLeftSpacePrefix(s, "");
      assert s + "" == s;
    }
  }

  predicate StartsWith(s: string, p: string) {
    |p| <= |s| && s[..|p|] == p
  }

  predicate EndsWith(s: string, p: string) {
    |p| <= |s| && s[|s| - |p|..] == p
  }

  /** Python's `p in s`. */
  predicate Contains(s: string, p: string)
    decreases |s|
  {
    StartsWith(s, p) || (s != [] && Contains(s[1..], p))
  }

  /** The first position at which `s` holds a character of `cs`, if any. */
  function IndexOfAny(s: string, cs: set<char>): (r: Option<nat>)
    ensures r.Some? ==> r.value < |s| && s[r.value] in cs
  {
    if s == [] then None
    else if s[0] in cs then Some(0)
    else match IndexOfAny(s[1..], cs)
      case None => None
      case Some(i) => Some(i + 1)
  }

  /** No character before the position `IndexOfAny` finds is in the set, and none at all when it finds nothing. */
  lemma {:induction false} IndexOfAnyIsFirst(s: string, cs: set<char>)
    ensures IndexOfAny(s, cs).None? ==> forall i :: 0 <= i < |s| ==> s[i] !in cs
    ensures IndexOfAny(s, cs).Some? ==> forall i :: 0 <= i < IndexOfAny(s, cs).value ==> s[i] !in cs
  {
    if s != [] && s[0] !in cs {
      IndexOfAnyIsFirst(s[1..], cs);
      assert forall i :: 1 <= i < |s| ==> s[i] == s[1..][i - 1];
    }
  }

  lemma IndexOfAnyFirst(s: string, cs: set<char>, i: nat)
    requires i < |s| && s[i] in cs && forall j :: 0 <= j < i ==> s[j] !in cs
    ensures IndexOfAny(s, cs) == Some(i)
  {
    IndexOfAnyIsFirst(s, cs);
  }

  /** Python's `s.replace(p, "")`: every occurrence of `p`, scanned left to right without overlap, removed. */
  function RemoveAll(s: string, p: string): (r: string)
    requires p != []
    ensures |r| <= |s|
    ensures !Contains(s, p) ==> r == s
    decreases |s|
  {
    if |s| < |p| then s
    else if s[..|p|] == p then RemoveAll(s[|p|..], p)
    else [s[0]] + RemoveAll(s[1..], p)
  }

  /** Removing a pattern that starts with `*` from text without `*` (but for a closing `**`) changes nothing. */
  lemma {:induction false} RemoveAllStarFree(x: string, p: string)
    requires |p| > 2 && p[0] == '*' && '*' !in x
    ensures RemoveAll(x + "**", p) == x + "**"
    decreases |x|
  {
    var s := x + "**";
    if |s| >= |p| {
      assert s[..|p|][0] == x[0] != p[0];
      assert s[1..] == x[1..] + "**";
      RemoveAllStarFree(x[1..], p);
    }
  }

  /** Removing every `**` from text without `*` followed by `**` leaves the text. */
  lemma {:induction false} RemoveClosingStars(x: string)
    requires '*' !in x
    ensures RemoveAll(x + "**", "**") == x
    decreases |x|
  {
    var s := x + "**";
    if x == [] {
      assert s[..2] == "**" && s[2..] == [];
    } else {
      assert s[..2][0] == x[0] != '*';
      assert s[1..] == x[1..] + "**";
      RemoveClosingStars(x[1..]);
    }
  }

  /** Python's `sep.join(parts)`. */
  function Join(parts: seq<string>, sep: string): (r: string)
    ensures |parts| == 1 ==> r == parts[0]
  {
    if parts == [] then ""
    else if |parts| == 1 then parts[0]
    else parts[0] + sep + Join(parts[1..], sep)
  }

  /** Joining one more part adds the separator and that part at the end. */
  lemma {:induction false} JoinAppend(parts: seq<string>, x: string, sep: string)
    requires parts != []
    ensures Join(parts + [x], sep) == Join(parts, sep) + sep + x
    decreases |parts|
  {
    var ps := parts + [x];
    assert ps[1..] == parts[1..] + [x];
    if |parts| > 1 {
      JoinAppend(parts[1..], x, sep);
    } else {
      assert ps[1..] == [x];
    }
  }

  /** The join starts with the first part and ends with the last. */
  lemma JoinEnds(parts: seq<string>, sep: string)
    requires parts != []
    ensures StartsWith(Join(parts, sep), parts[0])
    ensures EndsWith(Join(parts, sep), parts[|parts| - 1])
  {
    var j := Join(parts, sep);
    if |parts| > 1 {
      JoinAppend(parts[..|parts| - 1], parts[|parts| - 1], sep);
      assert parts[..|parts| - 1] + [parts[|parts| - 1]] == parts;
      assert j[|j| - |parts[|parts| - 1]|..] == parts[|parts| - 1];
      assert j[..|parts[0]|] == parts[0];
    }
  }

  /** Python's `s.split(c)` for a one-character separator: the maximal pieces between separators. */
  function Split(s: string, c: char): (r: seq<string>)
    ensures |r| >= 1
  {
    if s == [] then [""]
    else
      var rest := Split(s[1..], c);
      if s[0] == c then [""] + rest else [[s[0]] + rest[0]] + rest[1..]
  }

  /** The pieces of several strings, one after the other. */
  function Concat(pieces: seq<seq<string>>): seq<string> {
    if pieces == [] then [] else pieces[0] + Concat(pieces[1..])
  }

  lemma {:induction false} SplitNoSeparator(s: string, c: char)
    requires c !in s
    ensures Split(s, c) == [s]
  {
    if s != [] {
      assert s[0] != c && c !in s[1..];
      SplitNoSeparator(s[1..], c);
      assert s == [s[0]] + s[1..];
    }
  }

  /** Splitting at a separator splits each side on its own. */
  lemma {:induction false} SplitAround(a: string, c: char, b: string)
    ensures Split(a + [c] + b, c) == Split(a, c) + Split(b, c)
  {
    var s := a + [c] + b;
    if a == [] {
      assert s[0] == c && s[1..] == b;
    } else {
      assert s[0] == a[0] && s[1..] == a[1..] + [c] + b;
      SplitAround(a[1..], c, b);
      if a[0] != c {
        SplitConsHead(a, c, Split(b, c));
      }
    }
  }

  /** Prepending a non-separator extends the first piece, whatever follows. */
  lemma SplitConsHead(a: string, c: char, more: seq<string>)
    requires a != [] && a[0] != c
    ensures var ra := Split(a[1..], c);
      [[a[0]] + (ra + more)[0]] + (ra + more)[1..] == Split(a, c) + more
  {
    var ra := Split(a[1..], c);
    assert (ra + more)[0] == ra[0];
    assert (ra + more)[1..] == ra[1..] + more;
  }

  /** Splitting a join on a one-character separator gives back the pieces of every part, in order. */
  lemma {:induction false} SplitJoin(parts: seq<string>, c: char)
    requires parts != []
    ensures Split(Join(parts, [c]), c) == Concat(seq(|parts|, i requires 0 <= i < |parts| => Split(parts[i], c)))
  {
    var pieces := seq(|parts|, i requires 0 <= i < |parts| => Split(parts[i], c));
    if |parts| == 1 {
      assert Concat(pieces) == pieces[0] + Concat(pieces[1..]);
    } else {
      var tail := seq(|parts| - 1, i requires 0 <= i < |parts| - 1 => Split(parts[1..][i], c));
      SplitJoin(parts[1..], c);
      assert Join(parts, [c]) == parts[0] + [c] + Join(parts[1..], [c]);
      SplitAround(parts[0], c, Join(parts[1..], [c]));
      assert pieces[1..] == tail;
    }
  }

  /** Splitting is the inverse of joining when no part holds the separator. */
  lemma {:induction false} SplitJoinRoundTrip(parts: seq<string>, c: char)
    requires parts != []
    requires forall i :: 0 <= i < |parts| ==> c !in parts[i]
    ensures Split(Join(parts, [c]), c) == parts
  {
    if |parts| == 1 {
      SplitNoSeparator(parts[0], c);
    } else {
      SplitJoinRoundTrip(parts[1..], c);
      SplitAround(parts[0], c, Join(parts[1..], [c]));
      SplitNoSeparator(parts[0], c);
      assert Join(parts, [c]) == parts[0] + [c] + Join(parts[1..], [c]);
    }
  }

  /** Concatenation regroups freely; stated once so that proofs need not rediscover it. */
  lemma AppendAssoc<T>(a: seq<T>, b: seq<T>, c: seq<T>)
    ensures (a + b) + c == a + (b + c)
  {}

  datatype Option<+T> = None | Some(value: T)
}
