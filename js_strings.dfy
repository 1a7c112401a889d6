/**
 * The JavaScript string and array built-ins the migration script relies on,
 * stated over `seq<char>`: `startsWith`, `indexOf`, `replace` with a string
 * pattern, `slice`, `toLowerCase` (ASCII letters only) and `Array.prototype.join`.
 */
module JsStrings {
  import opened Wrappers

  /** `s.startsWith(p)` */
  predicate StartsWith(s: string, p: string) {
    |p| <= |s| && s[..|p|] == p
  }

  /** `pat` occurs in `s` beginning at offset `i`. */
  predicate OccursAt(s: string, pat: string, i: nat) {
    i + |pat| <= |s| && s[i..i + |pat|] == pat
  }

  lemma OccursAtTail(s: string, pat: string, j: nat)
    requires |s| > 0
    ensures OccursAt(s, pat, j + 1) <==> OccursAt(s[1..], pat, j)
  {
    if j + 1 + |pat| <= |s| {
      assert s[j + 1..j + 1 + |pat|] == s[1..][j..j + |pat|];
    }
  }

  /** `s.indexOf(pat)`: the first offset at which `pat` occurs, `None` for -1. */
  function IndexOf(s: string, pat: string): (r: Option<nat>)
    ensures r.Some? ==> OccursAt(s, pat, r.value)
    ensures r.Some? ==> forall j: nat :: j < r.value ==> !OccursAt(s, pat, j)
    ensures r.None? ==> forall j: nat :: !OccursAt(s, pat, j)
    decreases |s|
  {
    if StartsWith(s, pat) then Some(0)
    else if |s| == 0 then None
    else
      var tail := IndexOf(s[1..], pat);
      assert forall j: nat :: OccursAt(s, pat, j + 1) <==> OccursAt(s[1..], pat, j) by {
        forall j: nat ensures OccursAt(s, pat, j + 1) <==> OccursAt(s[1..], pat, j) {
          OccursAtTail(s, pat, j);
        }
      }
      assert forall j: nat :: j == 0 || OccursAt(s, pat, j) == OccursAt(s[1..], pat, j - 1);
      match tail
      case None => None
      case Some(k) => Some(k + 1)
  }

  /**
   * `s.replace(pat, rep)` for a string `pat` and a replacement without `$`
   * patterns: the first occurrence of `pat`, as `indexOf` finds it, is replaced.
   */
  function ReplaceFirst(s: string, pat: string, rep: string): string {
    match IndexOf(s, pat)
    case None => s
    case Some(i) => s[..i] + rep + s[i + |pat|..]
  }

  /** Replacing an occurrence of `pat` by `e + pat` inserts `e` in front of it and keeps the rest. */
  lemma InsertBefore(s: string, pat: string, i: nat, e: string)
    requires OccursAt(s, pat, i)
    ensures s[..i] + (e + pat) + s[i + |pat|..] == s[..i] + e + s[i..]
  {
    assert s[i..] == s[i..i + |pat|] + s[i + |pat|..];
  }

  /** `s.slice(start, end)` for non-negative offsets: both ends are clamped to `|s|`. */
  function Slice(s: string, start: nat, end: nat): (r: string)
    ensures start <= end <= |s| ==> r == s[start..end]
    ensures end <= start ==> r == []
    ensures |r| <= |s|
  {
    var e := if end < |s| then end else |s|;
    var b := if start < e then start else e;
    s[b..e]
  }

  predicate IsUpperAscii(c: char) {
    'A' <= c <= 'Z'
  }

  function LowerChar(c: char): char {
    if IsUpperAscii(c) then (c as int + 32) as char else c
  }

  /** `s.toLowerCase()`, restricted to the ASCII letters. */
  function Lower(s: string): (r: string)
    ensures |r| == |s|
    ensures forall i :: 0 <= i < |r| ==> !IsUpperAscii(r[i])
    ensures forall i :: 0 <= i < |s| && !IsUpperAscii(s[i]) ==> r[i] == s[i]
    ensures forall i :: 0 <= i < |s| && IsUpperAscii(s[i]) ==> r[i] as int == s[i] as int + 32
  {
    seq(|s|, i requires 0 <= i < |s| => LowerChar(s[i]))
  }

  /** Two characters are the same letter in either ASCII case, or simply equal. */
  predicate SameIgnoringAsciiCase(a: char, b: char) {
    || a == b
    || (IsUpperAscii(a) && b as int == a as int + 32)
    || (IsUpperAscii(b) && a as int == b as int + 32)
  }

  /** Two names lower to the same text exactly when they differ at most in the case of ASCII letters. */
  lemma LowerCollision(s: string, t: string)
    ensures Lower(s) == Lower(t) <==>
              |s| == |t| && forall i :: 0 <= i < |s| ==> SameIgnoringAsciiCase(s[i], t[i])
  {
  }

  /** `lines.join(sep)` */
  function Join(lines: seq<string>, sep: string): string
    decreases |lines|
  {
    if |lines| == 0 then ""
    else if |lines| == 1 then lines[0]
    else lines[0] + sep + Join(lines[1..], sep)
  }

  /** Every line followed by a newline: the reading of a text file as its lines. */
  function Lines(lines: seq<string>): string
    decreases |lines|
  {
    if |lines| == 0 then "" else lines[0] + "\n" + Lines(lines[1..])
  }

  /** Joining non-empty lines with newlines and adding one more newline terminates every line. */
  lemma {:induction false} JoinThenNewline(lines: seq<string>)
    requires |lines| > 0
    ensures Join(lines, "\n") + "\n" == Lines(lines)
    decreases |lines|
  {
    if |lines| > 1 {
      JoinThenNewline(lines[1..]);
      assert Join(lines, "\n") + "\n" == lines[0] + "\n" + (Join(lines[1..], "\n") + "\n");
    } else {
      assert lines[1..] == [];
    }
  }

  /** Appending a line appends its text and newline. */
  lemma {:induction false} LinesSnoc(lines: seq<string>, last: string)
    ensures Lines(lines + [last]) == Lines(lines) + last + "\n"
    decreases |lines|
  {
    if |lines| == 0 {
      assert lines + [last] == [last];
      assert [last][1..] == [];
    } else {
      assert (lines + [last])[1..] == lines[1..] + [last];
      LinesSnoc(lines[1..], last);
    }
  }

  /** The first index of `v` in `s`, or `|s|` when `v` does not occur. */
  function FirstIndex(s: seq<string>, v: string): (k: nat)
    ensures k <= |s|
    ensures k < |s| <==> v in s
    ensures k < |s| ==> s[k] == v
    ensures v !in s[..k]
    decreases |s|
  {
    if |s| == 0 then 0
    else if s[0] == v then 0
    else
      var k := 1 + FirstIndex(s[1..], v);
      assert s[..k] == [s[0]] + s[1..][..k - 1];
      k
  }

  lemma FirstIndexUnique(s: seq<string>, v: string, k: nat)
    requires k < |s| && s[k] == v && v !in s[..k]
    ensures FirstIndex(s, v) == k
  {
  }

  /** Appending never moves the first occurrence of a value already present. */
  lemma FirstIndexAppend(s: seq<string>, t: seq<string>, v: string)
    requires v in s
    ensures FirstIndex(s + t, v) == FirstIndex(s, v)
  {
    var k := FirstIndex(s, v);
    assert (s + t)[..k] == s[..k];
    FirstIndexUnique(s + t, v, k);
  }

  /** A value appended for the first time is first found at the old length. */
  lemma FirstIndexAppendNew(s: seq<string>, v: string)
    requires v !in s
    ensures FirstIndex(s + [v], v) == |s|
  {
    assert (s + [v])[..|s|] == s;
    FirstIndexUnique(s + [v], v, |s|);
  }
}
