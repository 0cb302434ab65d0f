/** String helpers shared by the frontend and backend models: the whitespace that
    JavaScript's `String.prototype.trim` and Python's `str.strip` remove, trimming,
    blank tests, substring search and removal of the first occurrence of a string.
    Strings are sequences of Unicode scalar values. */
module Text {

  datatype Option<T> = None | Some(value: T)

  /** Truthiness of an optional string, alike in JavaScript (`string | null`) and Python
      (`Optional[str]`): neither null nor empty. */
  predicate IsSet(id: Option<string>) {
    id.Some? && id.value != ""
  }

  /** WhiteSpace and LineTerminator code points of ECMAScript (what `trim()` removes). */
  predicate IsJsSpace(c: char) {
    c == '\t' || c == '\n' || c == '\U{000B}' || c == '\U{000C}' || c == '\r' || c == ' '
    || c == '\U{00A0}' || c == '\U{1680}' || ('\U{2000}' <= c <= '\U{200A}')
    || c == '\U{2028}' || c == '\U{2029}' || c == '\U{202F}' || c == '\U{205F}'
    || c == '\U{3000}' || c == '\U{FEFF}'
  }

  /** Code points for which Python's `str.isspace` holds (what `strip()` removes). */
  predicate IsPySpace(c: char) {
    ('\t' <= c <= '\r') || ('\U{001C}' <= c <= ' ') || c == '\U{0085}' || c == '\U{00A0}'
    || c == '\U{1680}' || ('\U{2000}' <= c <= '\U{200A}') || c == '\U{2028}' || c == '\U{2029}'
    || c == '\U{202F}' || c == '\U{205F}' || c == '\U{3000}'
  }

  predicate AllJsSpace(s: string) {
    forall i | 0 <= i < |s| :: IsJsSpace(s[i])
  }

  /** `!s.strip()` in Python: nothing but whitespace is left. */
  predicate PyBlank(s: string) {
    forall i | 0 <= i < |s| :: IsPySpace(s[i])
  }

  /** Where the text left after `trim()` starts: the first index at or after `k` that
      is not white space, or the end of the text. */
  function TrimStart(s: string, k: nat): (n: nat)
    requires k <= |s|
    ensures k <= n <= |s|
    ensures forall t | k <= t < n :: IsJsSpace(s[t])
    ensures n < |s| ==> !IsJsSpace(s[n])
    decreases |s| - k
  {
    if k < |s| && IsJsSpace(s[k]) then TrimStart(s, k + 1) else k
  }

  /** Where the text left after `trim()` ends: the last index at or before `k` that
      follows a character which is not white space, or 0. */
  function TrimEnd(s: string, k: nat): (n: nat)
    requires k <= |s|
    ensures n <= k
    ensures forall t | n <= t < k :: IsJsSpace(s[t])
    ensures n > 0 ==> !IsJsSpace(s[n - 1])
  {
    if k > 0 && IsJsSpace(s[k - 1]) then TrimEnd(s, k - 1) else k
  }

  /** JavaScript's `s.trim()`: the text with leading and trailing white space removed. */
  function Trim(s: string): (r: string)
    ensures |r| <= |s|
    ensures r == "" || (!IsJsSpace(r[0]) && !IsJsSpace(r[|r| - 1]))
    ensures r == "" <==> AllJsSpace(s)
  {
    var lo := TrimStart(s, 0);
    if lo == |s| then ""
    else
      var hi := TrimEnd(s, |s|);
      assert lo < hi by {
        assert !IsJsSpace(s[lo]);
      }
      s[lo..hi]
  }

  /** Trimming removes only white space, and only at the two ends: the result is the
      slice `s[i..j]` with nothing but white space outside it. */
  lemma TrimIsInnerSlice(s: string)
    ensures exists i, j | 0 <= i <= j <= |s| ::
      Trim(s) == s[i..j] && AllJsSpace(s[..i]) && AllJsSpace(s[j..])
  {
    var lo := TrimStart(s, 0);
    if lo == |s| {
      assert Trim(s) == s[0..0] && AllJsSpace(s[..0]) && AllJsSpace(s[0..]);
    } else {
      var hi := TrimEnd(s, |s|);
      assert !IsJsSpace(s[lo]);
      assert AllJsSpace(s[..lo]);
      assert AllJsSpace(s[hi..]);
      assert Trim(s) == s[lo..hi];
    }
  }

  /** A character that is not white space lies inside the trimmed slice, which then is
      everything between the leading and the trailing white space. */
  lemma NonSpaceSurvivesTrim(s: string, k: nat)
    requires k < |s| && !IsJsSpace(s[k])
    ensures TrimStart(s, 0) <= k < TrimEnd(s, |s|)
    ensures Trim(s) == s[TrimStart(s, 0)..TrimEnd(s, |s|)]
  {
  }

  /** Trimming a text whose ends are not white space changes nothing. */
  lemma TrimOfTrimmed(s: string)
    requires s == "" || (!IsJsSpace(s[0]) && !IsJsSpace(s[|s| - 1]))
    ensures Trim(s) == s
  {
  }

  /** A slice of a slice is a slice of the whole text. */
  lemma SliceOfSlice(s: string, lo: nat, hi: nat, a: nat, b: nat)
    requires lo <= hi <= |s| && a <= b <= hi - lo
    ensures s[lo..hi][a..b] == s[lo + a..lo + b]
  {
    assert forall t | 0 <= t < b - a :: s[lo..hi][a..b][t] == s[lo + a + t];
  }

  /** `pat` occurs in `s` starting at index `k`. */
  predicate OccursAt(s: string, pat: string, k: nat) {
    k + |pat| <= |s| && s[k..k + |pat|] == pat
  }

  /** `s.indexOf(pat, from)`: the first index at or after `from` where `pat` starts. */
  function FindFrom(s: string, pat: string, from: nat): (r: Option<nat>)
    ensures r.Some? ==> from <= r.value && OccursAt(s, pat, r.value)
    ensures r.Some? ==> forall k | from <= k < r.value :: !OccursAt(s, pat, k)
    ensures r.None? <==> forall k | from <= k :: !OccursAt(s, pat, k)
    decreases |s| - from
  {
    if from + |pat| > |s| then
      assert forall k | from <= k :: !OccursAt(s, pat, k);
      None
    else if s[from..from + |pat|] == pat then
      assert OccursAt(s, pat, from);
      Some(from)
    else FindFrom(s, pat, from + 1)
  }

  /** `s.replace(pat, "")` with a string pattern: the first occurrence of `pat` is
      removed; without one the text is returned as it is. */
  function RemoveFirst(s: string, pat: string): (r: string)
    ensures FindFrom(s, pat, 0).None? ==> r == s
    ensures FindFrom(s, pat, 0).Some? ==> |r| == |s| - |pat|
  {
    match FindFrom(s, pat, 0)
    case None => s
    case Some(k) => s[..k] + s[k + |pat|..]
  }

  /** With an occurrence at `k` (the first one), the result keeps the text before `k`
      and continues with the text after the occurrence: only that occurrence goes. */
  lemma RemoveFirstKeepsTheRest(s: string, pat: string, k: nat)
    requires FindFrom(s, pat, 0) == Some(k)
    ensures k <= |RemoveFirst(s, pat)|
    ensures RemoveFirst(s, pat)[..k] == s[..k]
    ensures RemoveFirst(s, pat)[k..] == s[k + |pat|..]
  {
    var r := RemoveFirst(s, pat);
    assert r == s[..k] + s[k + |pat|..];
    assert r[..k] == s[..k];
  }

  /** The in-order concatenation of a sequence of fragments, folded from the left as
      `acc += fragment` does. */
  function Concat(parts: seq<string>): (r: string)
    ensures parts == [] ==> r == ""
  {
    if parts == [] then "" else Concat(parts[..|parts| - 1]) + parts[|parts| - 1]
  }

  /** Appending one fragment to the sequence appends it to the concatenation. */
  lemma ConcatSnoc(parts: seq<string>, part: string)
    ensures Concat(parts + [part]) == Concat(parts) + part
  {
    assert (parts + [part])[..|parts|] == parts;
  }

  /** One more fragment of a prefix extends text that ends with the shorter prefix's
      concatenation by that fragment. */
  lemma StreamStep(base: string, parts: seq<string>, i: nat)
    requires i < |parts|
    ensures base + Concat(parts[..i + 1]) == (base + Concat(parts[..i])) + parts[i]
  {
    assert parts[..i + 1] == parts[..i] + [parts[i]];
    ConcatSnoc(parts[..i], parts[i]);
  }

  /** Concatenation distributes over joining two sequences of fragments. */
  lemma {:induction false} ConcatAppend(a: seq<string>, b: seq<string>)
    ensures Concat(a + b) == Concat(a) + Concat(b)
  {
    if b == [] {
      assert a + b == a;
    } else {
      var init := b[..|b| - 1];
      assert a + b == (a + init) + [b[|b| - 1]];
      ConcatSnoc(a + init, b[|b| - 1]);
      ConcatAppend(a, init);
      ConcatSnoc(init, b[|b| - 1]);
      assert init + [b[|b| - 1]] == b;
    }
  }

  /** `s.filter(keep)`: the elements for which `keep` holds, in their original order. */
  function Filter<T(!new)>(s: seq<T>, keep: T -> bool): (r: seq<T>)
    ensures |r| <= |s|
    ensures forall x :: x in r <==> x in s && keep(x)
    decreases |s|
  {
    if s == [] then []
    else
      var rest := Filter(s[1..], keep);
      assert forall x :: x in s <==> x == s[0] || x in s[1..];
      if keep(s[0]) then [s[0]] + rest else rest
  }

  /** Filtering a joined sequence joins the filtered halves: order is kept. */
  lemma {:induction false} FilterAppend<T(!new)>(a: seq<T>, b: seq<T>, keep: T -> bool)
    ensures Filter(a + b, keep) == Filter(a, keep) + Filter(b, keep)
    decreases |a|
  {
    if a == [] {
      assert a + b == b;
    } else {
      assert (a + b)[1..] == a[1..] + b;
      FilterAppend(a[1..], b, keep);
    }
  }

  /** A filter every element passes returns the sequence as it is. */
  lemma {:induction false} FilterKeepsAll<T(!new)>(s: seq<T>, keep: T -> bool)
    requires forall i | 0 <= i < |s| :: keep(s[i])
    ensures Filter(s, keep) == s
    decreases |s|
  {
    if s != [] {
      FilterKeepsAll(s[1..], keep);
      assert [s[0]] + s[1..] == s;
    }
  }

  /** Python's `s[:n]`: at most the first `n` characters. */
  function Prefix(s: string, n: nat): (r: string)
    ensures |r| == if |s| < n then |s| else n
    ensures r <= s
  {
    if |s| <= n then s else s[..n]
  }

  /** Decimal digits of a natural number, as `str(n)` writes them. */
  function NatToString(n: nat): (r: string)
    ensures |r| >= 1
    ensures forall i | 0 <= i < |r| :: '0' <= r[i] <= '9'
    decreases n
  {
    var d := [(48 + n % 10) as char];
    if n < 10 then d else NatToString(n / 10) + d
  }
}
