/**
 * The Python string operations the analyzer relies on, restricted to what it
 * uses them for: `str.replace`, `str.strip`, `str.lower`, `str.split('.')[-1]`,
 * `str.join`, and accumulating `+=` over a list of strings.
 */
module Text {

  /** The ASCII characters for which Python's `str.isspace` (and so the regex class `\s`) holds. */
  predicate IsSpace(c: char) {
    c == ' ' || c == '\t' || c == '\n' || c == '\r' || c == '\U{b}' || c == '\U{c}'
    || ('\U{1c}' <= c <= '\U{1f}')
  }

  /** The ASCII digits matched by the regex class `\d`. */
  predicate IsDigit(c: char) {
    '0' <= c <= '9'
  }

  /** `t` appears in `s` starting at index `i`. */
  predicate OccursAt(s: string, t: string, i: nat) {
    i + |t| <= |s| && s[i..i + |t|] == t
  }

  /** `t` appears somewhere in `s`. */
  ghost predicate Occurs(s: string, t: string) {
    exists i: nat :: OccursAt(s, t, i)
  }

  // ---------------------------------------------------------------------------
  // str.replace(target, replacement): a left-to-right scan that replaces every
  // non-overlapping occurrence and never rescans inserted text.
  // ---------------------------------------------------------------------------

  function Replace(s: string, target: string, replacement: string): string
    requires target != []
    decreases |s|
  {
    if |s| < |target| then s
    else if s[..|target|] == target then replacement + Replace(s[|target|..], target, replacement)
    else [s[0]] + Replace(s[1..], target, replacement)
  }

  /** A text in which the target never appears comes back unchanged. */
  lemma {:induction false} ReplaceWithoutOccurrence(s: string, target: string, replacement: string)
    requires target != []
    requires !Occurs(s, target)
    ensures Replace(s, target, replacement) == s
    decreases |s|
  {
    if |s| >= |target| {
      assert !OccursAt(s, target, 0);
      forall i: nat | OccursAt(s[1..], target, i) ensures false {
        assert s[1..][i..i + |target|] == s[i + 1..i + 1 + |target|];
        assert OccursAt(s, target, i + 1);
      }
      ReplaceWithoutOccurrence(s[1..], target, replacement);
      assert [s[0]] + s[1..] == s;
    }
  }

  /** Replacing a token by itself changes nothing. */
  lemma {:induction false} ReplaceIdentity(s: string, target: string)
    requires target != []
    ensures Replace(s, target, target) == s
    decreases |s|
  {
    if |s| >= |target| {
      if s[..|target|] == target {
        ReplaceIdentity(s[|target|..], target);
        assert s[..|target|] + s[|target|..] == s;
      } else {
        ReplaceIdentity(s[1..], target);
        assert [s[0]] + s[1..] == s;
      }
    }
  }

  /** Where the target does not start the text, the scan keeps the first character and moves on. */
  lemma ReplaceKeepsFirst(s: string, target: string, replacement: string)
    requires target != [] && |target| <= |s| && !OccursAt(s, target, 0)
    ensures Replace(s, target, replacement) == [s[0]] + Replace(s[1..], target, replacement)
  {
  }

  lemma Reassociate(whole: string, head: string, tail: string, a: string, b: string, c: string)
    requires whole == head + tail && tail == a + b + c
    ensures whole == (head + a) + b + c
  {
  }

  /** Where the target starts the text, it is replaced and the scan resumes after it. */
  lemma ReplaceAtStart(s: string, target: string, replacement: string)
    requires target != [] && OccursAt(s, target, 0)
    ensures Replace(s, target, replacement) == replacement + Replace(s[|target|..], target, replacement)
  {
    assert s[..|target|] == target;
  }

  /** Dropping the first character shifts every occurrence one place to the left. */
  lemma OccursAtShift(s: string, t: string, j: nat)
    requires s != []
    ensures OccursAt(s[1..], t, j) <==> OccursAt(s, t, j + 1)
  {
    if j + 1 + |t| <= |s| {
      assert s[1..][j..j + |t|] == s[j + 1..j + 1 + |t|];
    }
  }

  /**
   * The leftmost occurrence is replaced and the scan resumes right after it:
   * together with ReplaceWithoutOccurrence this determines Replace completely.
   */
  lemma {:induction false} ReplaceAtLeftmost(s: string, target: string, replacement: string, i: nat)
    requires target != []
    requires OccursAt(s, target, i)
    requires forall j: nat :: j < i ==> !OccursAt(s, target, j)
    ensures Replace(s, target, replacement)
            == s[..i] + replacement + Replace(s[i + |target|..], target, replacement)
    decreases i, 1
  {
    if i == 0 {
      ReplaceAtStart(s, target, replacement);
      assert s[..0] + replacement == replacement;
    } else {
      OccursAtShift(s, target, i - 1);
      forall j: nat | j < i - 1 ensures !OccursAt(s[1..], target, j) {
        OccursAtShift(s, target, j);
      }
      ReplaceAtLeftmostAfterFirst(s, target, replacement, i);
    }
  }

  /** The scan past a first character that does not start the target. */
  lemma {:induction false} ReplaceAtLeftmostAfterFirst(s: string, target: string, replacement: string, i: nat)
    requires target != [] && i > 0 && |target| <= |s| && !OccursAt(s, target, 0)
    requires OccursAt(s[1..], target, i - 1)
    requires forall j: nat :: j < i - 1 ==> !OccursAt(s[1..], target, j)
    ensures Replace(s, target, replacement)
            == s[..i] + replacement + Replace(s[i + |target|..], target, replacement)
    decreases i, 0
  {
    var t := s[1..];
    ReplaceKeepsFirst(s, target, replacement);
    ReplaceAtLeftmost(t, target, replacement, i - 1);
    assert t[i - 1 + |target|..] == s[i + |target|..];
    assert [s[0]] + t[..i - 1] == s[..i];
    Reassociate(Replace(s, target, replacement), [s[0]], Replace(t, target, replacement),
                t[..i - 1], replacement, Replace(s[i + |target|..], target, replacement));
  }

  // ---------------------------------------------------------------------------
  // str.strip(): remove leading and trailing whitespace.
  // ---------------------------------------------------------------------------

  function TrimStart(s: string): (r: string)
    ensures |r| <= |s| && r == s[|s| - |r|..]
    ensures forall k :: 0 <= k < |s| - |r| ==> IsSpace(s[k])
    ensures r != [] ==> !IsSpace(r[0])
    decreases |s|
  {
    if s != [] && IsSpace(s[0]) then TrimStart(s[1..]) else s
  }

  function TrimEnd(s: string): (r: string)
    ensures |r| <= |s| && r == s[..|r|]
    ensures forall k :: |r| <= k < |s| ==> IsSpace(s[k])
    ensures r != [] ==> !IsSpace(r[|r| - 1])
    decreases |s|
  {
    if s != [] && IsSpace(s[|s| - 1]) then TrimEnd(s[..|s| - 1]) else s
  }

  /** Python's `str.strip()`: the text between the first and the last non-whitespace character. */
  function Strip(s: string): (r: string)
    ensures |r| <= |s|
    ensures r == [] <==> forall k :: 0 <= k < |s| ==> IsSpace(s[k])
    ensures r != [] ==> !IsSpace(r[0]) && !IsSpace(r[|r| - 1])
    ensures exists a, b :: 0 <= a <= b <= |s| && r == s[a..b]
                           && (forall k :: 0 <= k < a ==> IsSpace(s[k]))
                           && (forall k :: b <= k < |s| ==> IsSpace(s[k]))
  {
    var t := TrimStart(s);
    var r := TrimEnd(t);
    assert r != [] ==> !IsSpace(r[0]) by {
      if r != [] {
        assert r[0] == t[0];
      }
    }
    StripIsSlice(s, t, r);
    r
  }

  /** A prefix `r` of a suffix `t` of `s`, with only whitespace around it, is a slice of `s` between whitespace. */
  lemma StripIsSlice(s: string, t: string, r: string)
    requires |t| <= |s| && t == s[|s| - |t|..] && forall k :: 0 <= k < |s| - |t| ==> IsSpace(s[k])
    requires |r| <= |t| && r == t[..|r|] && forall k :: |r| <= k < |t| ==> IsSpace(t[k])
    ensures exists a, b :: 0 <= a <= b <= |s| && r == s[a..b]
                           && (forall k :: 0 <= k < a ==> IsSpace(s[k]))
                           && (forall k :: b <= k < |s| ==> IsSpace(s[k]))
  {
    var a := |s| - |t|;
    var b := a + |r|;
    assert r == s[a..b];
    forall k | b <= k < |s|
      ensures IsSpace(s[k])
    {
      assert s[k] == t[k - a];
    }
  }

  // ---------------------------------------------------------------------------
  // str.lower() on ASCII letters, and str.split('.')[-1].
  // ---------------------------------------------------------------------------

  function LowerChar(c: char): char {
    if 'A' <= c <= 'Z' then (c as int + 32) as char else c
  }

  function Lower(s: string): (r: string)
    ensures |r| == |s|
    ensures forall k :: 0 <= k < |s| ==> r[k] == LowerChar(s[k])
    decreases |s|
  {
    if s == [] then [] else [LowerChar(s[0])] + Lower(s[1..])
  }

  /**
   * `s.split('.')[-1]`: the longest suffix without a dot, which is all of `s`
   * when `s` has no dot and otherwise starts right after the last dot.
   */
  function AfterLastDot(s: string): (r: string)
    ensures |r| <= |s| && r == s[|s| - |r|..]
    ensures forall k :: 0 <= k < |r| ==> r[k] != '.'
    ensures |r| < |s| ==> s[|s| - |r| - 1] == '.'
    decreases |s|
  {
    if s == [] || s[|s| - 1] == '.' then []
    else AfterLastDot(s[..|s| - 1]) + [s[|s| - 1]]
  }

  // ---------------------------------------------------------------------------
  // sep.join(parts), and the `text += part` accumulation.
  // ---------------------------------------------------------------------------

  /** Python's `sep.join(parts)`, built the way a loop appending one part at a time builds it. */
  function Join(sep: string, parts: seq<string>): string
    decreases |parts|
  {
    if parts == [] then ""
    else if |parts| == 1 then parts[0]
    else Join(sep, parts[..|parts| - 1]) + sep + parts[|parts| - 1]
  }

  /** Where part `k` starts in `Join(sep, parts)`: the lengths of the earlier parts and separators. */
  function JoinOffset(sep: string, parts: seq<string>, k: nat): nat
    requires k <= |parts|
    decreases k
  {
    if k == 0 then 0 else JoinOffset(sep, parts, k - 1) + |parts[k - 1]| + |sep|
  }

  /** The joined text ends right after its last part. */
  lemma {:induction false} JoinLength(sep: string, parts: seq<string>)
    requires parts != []
    ensures |Join(sep, parts)| == JoinOffset(sep, parts, |parts| - 1) + |parts[|parts| - 1]|
    decreases |parts|
  {
    var n := |parts|;
    if n > 1 {
      var init := parts[..n - 1];
      JoinLength(sep, init);
      JoinOffsetPrefix(sep, parts, init, n - 2);
    }
  }

  /** Every part sits in the joined text at its offset and in its order, preceded by a separator. */
  lemma {:induction false} JoinAt(sep: string, parts: seq<string>, k: nat)
    requires k < |parts|
    ensures OccursAt(Join(sep, parts), parts[k], JoinOffset(sep, parts, k))
    ensures k > 0 ==> OccursAt(Join(sep, parts), sep, JoinOffset(sep, parts, k) - |sep|)
    decreases |parts|, 1
  {
    if k < |parts| - 1 {
      JoinAtEarlier(sep, parts, k);
    } else if k > 0 {
      JoinAtLast(sep, parts);
    }
  }

  /** A part before the last one keeps its place once the last part is appended. */
  lemma {:induction false} JoinAtEarlier(sep: string, parts: seq<string>, k: nat)
    requires k < |parts| - 1
    ensures OccursAt(Join(sep, parts), parts[k], JoinOffset(sep, parts, k))
    ensures k > 0 ==> OccursAt(Join(sep, parts), sep, JoinOffset(sep, parts, k) - |sep|)
    decreases |parts|, 0
  {
    var n := |parts|;
    var init := parts[..n - 1];
    var head := Join(sep, init);
    var last := parts[n - 1];
    assert Join(sep, parts) == head + sep + last;
    JoinAt(sep, init, k);
    assert init[k] == parts[k];
    JoinOffsetPrefix(sep, parts, init, k);
    var o := JoinOffset(sep, parts, k);
    PrefixOccurrence(head, sep, parts[k], o);
    PrefixOccurrence(head + sep, last, parts[k], o);
    if k > 0 {
      PrefixOccurrence(head, sep, sep, o - |sep|);
      PrefixOccurrence(head + sep, last, sep, o - |sep|);
    }
  }

  /** The last part follows the last separator at the end of the joined text. */
  lemma JoinAtLast(sep: string, parts: seq<string>)
    requires |parts| > 1
    ensures OccursAt(Join(sep, parts), parts[|parts| - 1], JoinOffset(sep, parts, |parts| - 1))
    ensures OccursAt(Join(sep, parts), sep, JoinOffset(sep, parts, |parts| - 1) - |sep|)
  {
    var n := |parts|;
    var init := parts[..n - 1];
    var head := Join(sep, init);
    var last := parts[n - 1];
    assert Join(sep, parts) == head + sep + last;
    JoinLength(sep, init);
    JoinOffsetPrefix(sep, parts, init, n - 2);
    assert |head| + |sep| == JoinOffset(sep, parts, n - 1);
    AppendedOccurrence(head + sep, last);
    AppendedOccurrence(head, sep);
    PrefixOccurrence(head + sep, last, sep, |head|);
  }

  lemma {:induction false} JoinOffsetPrefix(sep: string, parts: seq<string>, init: seq<string>, k: nat)
    requires k <= |init| <= |parts| && init == parts[..|init|]
    ensures JoinOffset(sep, init, k) == JoinOffset(sep, parts, k)
    decreases k
  {
    if k > 0 {
      JoinOffsetPrefix(sep, parts, init, k - 1);
    }
  }

  lemma PrefixOccurrence(a: string, b: string, t: string, i: nat)
    requires OccursAt(a, t, i)
    ensures OccursAt(a + b, t, i)
  {
    assert (a + b)[i..i + |t|] == a[i..i + |t|];
  }

  /** A part made of `h` then `x` puts `h` at the part's offset and `x` right after it. */
  lemma JoinPartSplit(sep: string, parts: seq<string>, k: nat, h: string, x: string)
    requires k < |parts| && parts[k] == h + x
    ensures OccursAt(Join(sep, parts), h, JoinOffset(sep, parts, k))
    ensures OccursAt(Join(sep, parts), x, JoinOffset(sep, parts, k) + |h|)
  {
    JoinAt(sep, parts, k);
    SplitOccurrence(Join(sep, parts), h, x, JoinOffset(sep, parts, k));
  }

  /** The two pieces of an occurrence `h + x` occur back to back. */
  lemma SplitOccurrence(s: string, h: string, x: string, i: nat)
    requires OccursAt(s, h + x, i)
    ensures OccursAt(s, h, i) && OccursAt(s, x, i + |h|)
  {
    assert s[i..i + |h|] == (h + x)[..|h|];
    assert s[i + |h|..i + |h| + |x|] == (h + x)[|h|..];
  }

  lemma AppendedOccurrence(a: string, t: string)
    ensures OccursAt(a + t, t, |a|)
  {
    assert (a + t)[|a|..|a| + |t|] == t;
  }

  /** `text = ""; for part in parts: text += part`. */
  function Concat(parts: seq<string>): string
    decreases |parts|
  {
    if parts == [] then "" else Concat(parts[..|parts| - 1]) + parts[|parts| - 1]
  }

  /** Accumulating parts is joining them with the empty separator. */
  lemma {:induction false} ConcatIsJoin(parts: seq<string>)
    ensures Concat(parts) == Join("", parts)
    decreases |parts|
  {
    if |parts| > 1 {
      ConcatIsJoin(parts[..|parts| - 1]);
    } else if |parts| == 1 {
      assert parts[..0] == [];
    }
  }

  /**
   * Every part of an accumulated text sits at the total length of the parts
   * before it, and the text ends right after the last part.
   */
  lemma ConcatLayout(parts: seq<string>)
    ensures |Concat(parts)| == JoinOffset("", parts, |parts|)
    ensures forall k :: 0 <= k < |parts| ==> OccursAt(Concat(parts), parts[k], JoinOffset("", parts, k))
  {
    ConcatIsJoin(parts);
    if parts != [] {
      JoinLength("", parts);
    }
    forall k | 0 <= k < |parts| ensures OccursAt(Concat(parts), parts[k], JoinOffset("", parts, k)) {
      JoinAt("", parts, k);
    }
  }

  /** A text that lacks some character of `t` does not contain `t`. */
  lemma MissingCharExcludes(s: string, t: string, c: char)
    requires c in t && c !in s
    ensures !Occurs(s, t)
  {
  }

  /** A text shorter than `t` does not contain `t`. */
  lemma ShorterExcludes(s: string, t: string)
    requires |s| < |t|
    ensures !Occurs(s, t)
  {
  }
}
