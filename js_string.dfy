/**
 * The handful of JavaScript string operations the userscripts rely on
 * (`includes`, `startsWith`, `indexOf`, `split(sep)[1]`) and the truthiness of an
 * optional string, stated over `seq<char>`.
 */
module JsString {
  import opened Wrappers

  /** `p` occurs in `s` starting at index `i`. */
  predicate OccursAt(s: string, p: string, i: nat) {
    i + |p| <= |s| && s[i..i + |p|] == p
  }

  /** `s.startsWith(p)`. */
  predicate StartsWith(s: string, p: string) {
    |p| <= |s| && s[..|p|] == p
  }

  /** `s.endsWith(p)`. */
  predicate EndsWith(s: string, p: string) {
    |p| <= |s| && s[|s| - |p|..] == p
  }

  /** JavaScript truthiness of a value that is a string or null: null and "" are falsy. */
  predicate Truthy(o: Option<string>) {
    o.Some? && o.value != ""
  }

  /** `s.indexOf(p, from)`, with -1 as None: the leftmost occurrence at or after `from`. */
  function IndexOf(s: string, p: string, from: nat): (r: Option<nat>)
    ensures r.Some? ==> from <= r.value && OccursAt(s, p, r.value)
    ensures r.Some? ==> forall j :: from <= j < r.value ==> !OccursAt(s, p, j)
    ensures r.None? ==> forall j :: from <= j ==> !OccursAt(s, p, j)
    decreases |s| - from
  {
    if |s| < from + |p| then None
    else if s[from..from + |p|] == p then Some(from)
    else IndexOf(s, p, from + 1)
  }

  /** `s.includes(p)`: case-sensitive substring test. */
  function Includes(s: string, p: string): (r: bool)
    ensures r <==> exists i: nat :: OccursAt(s, p, i)
  {
    IndexOf(s, p, 0).Some?
  }

  /** A string includes itself at the start of any extension. */
  lemma IncludesPrefix(p: string, rest: string)
    ensures Includes(p + rest, p)
  {
    assert OccursAt(p + rest, p, 0) by {
      assert (p + rest)[0..|p|] == p;
    }
  }

  /** An occurrence inside `b` is an occurrence inside `a + b`, shifted by `|a|`. */
  lemma OccursInSuffix(a: string, b: string, p: string, i: nat)
    requires OccursAt(b, p, i)
    ensures OccursAt(a + b, p, |a| + i)
  {
    assert (a + b)[|a| + i..|a| + i + |p|] == b[i..i + |p|];
  }

  /** An occurrence in `a + b` that starts inside `b`'s part is an occurrence in `b`. */
  lemma OccursFromSuffix(a: string, b: string, p: string, i: nat)
    requires |a| <= i && OccursAt(a + b, p, i)
    ensures OccursAt(b, p, i - |a|)
  {
    assert (a + b)[i..i + |p|] == b[i - |a|..i - |a| + |p|];
  }

  /** An occurrence fixes every character it covers. */
  lemma OccursChar(s: string, p: string, i: nat, j: nat)
    requires OccursAt(s, p, i) && j < |p|
    ensures s[i + j] == p[j]
  {
    assert s[i..i + |p|][j] == s[i + j];
  }

  /** One differing character rules an occurrence out. */
  lemma MismatchNotOccurs(s: string, p: string, i: nat, j: nat)
    requires j < |p| && i + j < |s| && s[i + j] != p[j]
    ensures !OccursAt(s, p, i)
  {
    if i + |p| <= |s| {
      assert s[i..i + |p|][j] == s[i + j];
    }
  }

  /** Where `p` occurs nowhere at or after `from`, `indexOf` finds nothing. */
  lemma IndexOfAbsent(s: string, p: string, from: nat)
    requires forall j: nat :: from <= j ==> !OccursAt(s, p, j)
    ensures IndexOf(s, p, from).None?
  {
  }

  /** Two adjacent occurrences make one occurrence of the concatenation. */
  lemma OccursJoin(s: string, x: string, y: string, i: nat)
    requires OccursAt(s, x, i) && OccursAt(s, y, i + |x|)
    ensures OccursAt(s, x + y, i)
  {
    assert s[i..i + |x| + |y|] == s[i..i + |x|] + s[i + |x|..i + |x| + |y|];
  }

  /** An occurrence of a concatenation is an occurrence of each part, side by side. */
  lemma OccursSplit(s: string, x: string, y: string, i: nat)
    requires OccursAt(s, x + y, i)
    ensures OccursAt(s, x, i) && OccursAt(s, y, i + |x|)
  {
    assert s[i..i + |x|] == (x + y)[..|x|];
    assert s[i + |x|..i + |x| + |y|] == (x + y)[|x|..];
  }

  /** An occurrence inside a slice is an occurrence in the whole string. */
  lemma OccursInSlice(s: string, p: string, a: nat, b: nat, k: nat)
    requires a <= b <= |s| && OccursAt(s[a..b], p, k)
    ensures OccursAt(s, p, a + k)
  {
    forall t | 0 <= t < |p| ensures s[a + k + t] == p[t] {
      assert s[a..b][k..k + |p|][t] == p[t];
    }
    assert s[a + k..a + k + |p|] == p;
  }

  /**
   * `w` is the piece of `s` after the first occurrence of `sep`, found at `i`: it
   * starts right after that occurrence, no occurrence of `sep` starts inside it, and
   * it runs up to the next occurrence (or the end of `s`).
   */
  ghost predicate SecondPiece(s: string, sep: string, i: nat, w: string) {
    && OccursAt(s, sep, i) && (forall j :: 0 <= j < i ==> !OccursAt(s, sep, j))
    && OccursAt(s, w, i + |sep|)
    && (forall k :: i + |sep| <= k < i + |sep| + |w| ==> !OccursAt(s, sep, k))
    && (i + |sep| + |w| == |s| || OccursAt(s, sep, i + |sep| + |w|))
  }

  /**
   * `s.split(sep)[1]`: the text between the first occurrence of `sep` and the next
   * one (or the end of `s`); `undefined` (None) when `sep` does not occur at all.
   * The occurrences are found left to right without overlapping, as `split` does.
   */
  function SplitSecond(s: string, sep: string): (r: Option<string>)
    requires sep != ""
    ensures r.None? <==> !Includes(s, sep)
    ensures r.Some? ==> exists i: nat :: SecondPiece(s, sep, i, r.value)
    ensures r.Some? ==> !Includes(r.value, sep)
  {
    match IndexOf(s, sep, 0)
    case None => None
    case Some(i) =>
      var start := i + |sep|;
      match IndexOf(s, sep, start)
      case None =>
        PieceUpTo(s, sep, i, |s|);
        Some(s[i + |sep|..|s|])
      case Some(j) =>
        PieceUpTo(s, sep, i, j);
        Some(s[i + |sep|..j])
  }

  /** The slice from after the first occurrence at `i` up to `e`, where no occurrence starts in between, is the piece. */
  lemma PieceUpTo(s: string, sep: string, i: nat, e: nat)
    requires sep != "" && OccursAt(s, sep, i) && (forall j :: 0 <= j < i ==> !OccursAt(s, sep, j))
    requires i + |sep| <= e <= |s| && (forall k :: i + |sep| <= k < e ==> !OccursAt(s, sep, k))
    requires e == |s| || OccursAt(s, sep, e)
    ensures SecondPiece(s, sep, i, s[i + |sep|..e]) && !Includes(s[i + |sep|..e], sep)
  {
    var w := s[i + |sep|..e];
    assert s[i + |sep|..i + |sep| + |w|] == w;
    PieceHasNoSeparator(s, sep, i + |sep|, e);
  }

  /** A slice in which no occurrence of `sep` starts does not include `sep`. */
  lemma PieceHasNoSeparator(s: string, sep: string, a: nat, b: nat)
    requires sep != "" && a <= b <= |s| && forall k :: a <= k < b ==> !OccursAt(s, sep, k)
    ensures !Includes(s[a..b], sep)
  {
    forall k: nat | OccursAt(s[a..b], sep, k) ensures false {
      OccursInSlice(s, sep, a, b, k);
    }
  }

  /**
   * `s.length`: JavaScript strings count UTF-16 code units, so a character outside
   * the Basic Multilingual Plane counts twice.
   */
  function Utf16Length(s: string): (n: nat)
    ensures |s| <= n <= 2 * |s|
  {
    if s == [] then 0
    else (if s[0] > '\U{FFFF}' then 2 else 1) + Utf16Length(s[1..])
  }

  /** For text inside the Basic Multilingual Plane the two lengths agree. */
  lemma {:induction false} Utf16LengthBmp(s: string)
    requires forall k :: 0 <= k < |s| ==> s[k] <= '\U{FFFF}'
    ensures Utf16Length(s) == |s|
  {
    if s != [] {
      Utf16LengthBmp(s[1..]);
    }
  }

  /**
   * `.length` is the character count exactly when no character lies above U+FFFF,
   * and twice the character count exactly when every character does: each
   * character above the Basic Multilingual Plane counts twice, any other once.
   */
  lemma {:induction false} Utf16LengthCountsAstral(s: string)
    ensures Utf16Length(s) == |s| <==> forall k :: 0 <= k < |s| ==> s[k] <= '\U{FFFF}'
    ensures Utf16Length(s) == 2 * |s| <==> forall k :: 0 <= k < |s| ==> s[k] > '\U{FFFF}'
  {
    if s != [] {
      Utf16LengthCountsAstral(s[1..]);
      assert forall k :: 1 <= k < |s| ==> s[k] == s[1..][k - 1];
    }
  }

  /** The length of a concatenation is the sum of the lengths. */
  lemma {:induction false} Utf16LengthConcat(a: string, b: string)
    ensures Utf16Length(a + b) == Utf16Length(a) + Utf16Length(b)
  {
    if a != [] {
      assert (a + b)[0] == a[0] && (a + b)[1..] == a[1..] + b;
      Utf16LengthConcat(a[1..], b);
    } else {
      assert a + b == b;
    }
  }
}
