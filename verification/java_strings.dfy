/**
 * The parts of `java.lang.String` the valve relies on: `startsWith`, `trim`
 * and `split` on a one-character separator.
 */
module JavaStrings {

  /** `s.startsWith(prefix)`; every string starts with the empty string. */
  predicate StartsWith(s: string, prefix: string)
    ensures StartsWith(s, prefix) <==> |prefix| <= |s| && s[..|prefix|] == prefix
  {
    prefix <= s
  }

  /** The characters `trim` removes: every character at or below U+0020. */
  predicate IsTrimmable(c: char) {
    c <= ' '
  }

  /** A string `trim` leaves alone: empty, or bounded by non-trimmable characters. */
  predicate IsTrimmed(s: string) {
    s == [] || (!IsTrimmable(s[0]) && !IsTrimmable(s[|s| - 1]))
  }

  /** `r` sits at position `k` of `s`, and everything of `s` around it is trimmable. */
  predicate StrippedAt(s: string, r: string, k: nat)
    requires k + |r| <= |s|
  {
    && r == s[k..k + |r|]
    && (forall i :: 0 <= i < k ==> IsTrimmable(s[i]))
    && (forall i :: k + |r| <= i < |s| ==> IsTrimmable(s[i]))
  }

  /** `r` is `s` with only trimmable characters cut from its two ends. */
  predicate StripsTo(s: string, r: string) {
    exists k: nat :: k + |r| <= |s| && StrippedAt(s, r, k)
  }

  /** The first loop of `trim`: advances `st` past the leading trimmable characters. */
  function LeadingEnd(s: string, st: nat): (r: nat)
    requires st <= |s|
    requires forall i :: 0 <= i < st ==> IsTrimmable(s[i])
    ensures st <= r <= |s|
    ensures forall i :: 0 <= i < r ==> IsTrimmable(s[i])
    ensures r == |s| || !IsTrimmable(s[r])
    decreases |s| - st
  {
    if st < |s| && IsTrimmable(s[st]) then LeadingEnd(s, st + 1) else st
  }

  /** The second loop of `trim`: moves `len` back over the trailing trimmable characters, never below `st`. */
  function TrailingStart(s: string, st: nat, len: nat): (r: nat)
    requires st <= len <= |s|
    requires forall i :: len <= i < |s| ==> IsTrimmable(s[i])
    ensures st <= r <= len
    ensures forall i :: r <= i < |s| ==> IsTrimmable(s[i])
    ensures r == st || !IsTrimmable(s[r - 1])
    decreases len
  {
    if st < len && IsTrimmable(s[len - 1]) then TrailingStart(s, st, len - 1) else len
  }

  /**
   * `s.trim()`: the slice of `s` left once the trimmable characters at both
   * ends are gone. Everything cut off is trimmable and the result is trimmed.
   */
  function Trim(s: string): (r: string)
    ensures IsTrimmed(r)
    ensures StripsTo(s, r)
  {
    var st := LeadingEnd(s, 0);
    var len := TrailingStart(s, st, |s|);
    assert StrippedAt(s, s[st..len], st);
    s[st..len]
  }

  /** `trim` changes a string exactly when the string is not already trimmed. */
  lemma TrimFixedPoint(s: string)
    ensures Trim(s) == s <==> IsTrimmed(s)
  {
  }

  /** Every character of `Trim(s)` occurs in `s`. */
  lemma TrimKeepsCharacters(s: string, c: char)
    ensures c in Trim(s) ==> c in s
  {
  }

  /** The inverse of `Split`: the parts glued back together with `sep` between them. */
  function Join(parts: seq<string>, sep: char): string {
    if |parts| == 0 then []
    else if |parts| == 1 then parts[0]
    else parts[0] + [sep] + Join(parts[1..], sep)
  }

  /**
   * Cuts `s` at every occurrence of `sep`, keeping empty pieces: there is
   * always at least one piece and no piece contains `sep`.
   */
  function Split(s: string, sep: char): (r: seq<string>)
    ensures |r| >= 1
    ensures forall i :: 0 <= i < |r| ==> sep !in r[i]
  {
    if s == [] then [[]]
    else
      var rest := Split(s[1..], sep);
      if s[0] == sep then [[]] + rest
      else [[s[0]] + rest[0]] + rest[1..]
  }

  /** Joining the pieces of a split with the separator gives the string back. */
  lemma {:induction false} JoinSplit(s: string, sep: char)
    ensures Join(Split(s, sep), sep) == s
  {
    if s != [] {
      var rest := Split(s[1..], sep);
      var r := Split(s, sep);
      JoinSplit(s[1..], sep);
      assert s == [s[0]] + s[1..];
      if s[0] == sep {
        assert r == [[]] + rest;
        assert r[1..] == rest;
        assert Join(r, sep) == [] + [sep] + Join(rest, sep);
      } else {
        assert r == [[s[0]] + rest[0]] + rest[1..];
        assert r[0] == [s[0]] + rest[0];
        assert r[1..] == rest[1..];
        if |rest| == 1 {
          assert Join(r, sep) == [s[0]] + rest[0];
        } else {
          assert Join(rest, sep) == rest[0] + [sep] + Join(rest[1..], sep);
          assert Join(r, sep) == ([s[0]] + rest[0]) + [sep] + Join(rest[1..], sep);
        }
      }
    }
  }

  /** Splitting a word without `sep` in front of `t` glues the word onto the first piece of `t`. */
  lemma {:induction false} SplitAfterWord(w: string, t: string, sep: char)
    requires sep !in w
    ensures Split(w + t, sep) == [w + Split(t, sep)[0]] + Split(t, sep)[1..]
    decreases |w|
  {
    if w != [] {
      var pieces := Split(t, sep);
      var s := w + t;
      assert s[0] == w[0] && s[0] != sep;
      assert s[1..] == w[1..] + t;
      SplitAfterWord(w[1..], t, sep);
      var rest := Split(s[1..], sep);
      assert rest == [w[1..] + pieces[0]] + pieces[1..];
      assert rest[0] == w[1..] + pieces[0] && rest[1..] == pieces[1..];
      assert Split(s, sep) == [[s[0]] + rest[0]] + rest[1..];
      assert [w[0]] + (w[1..] + pieces[0]) == w + pieces[0];
    } else {
      var pieces := Split(t, sep);
      assert w + t == t;
      assert w + pieces[0] == pieces[0];
      assert pieces == [pieces[0]] + pieces[1..];
    }
  }

  /** `Split` undoes `Join` when no part contains the separator. */
  lemma {:induction false} SplitJoin(parts: seq<string>, sep: char)
    requires |parts| >= 1
    requires forall i :: 0 <= i < |parts| ==> sep !in parts[i]
    ensures Split(Join(parts, sep), sep) == parts
    decreases |parts|
  {
    if |parts| == 1 {
      SplitAfterWord(parts[0], [], sep);
      assert parts[0] + [] == parts[0];
    } else {
      var tail := Join(parts[1..], sep);
      SplitJoin(parts[1..], sep);
      assert Split([sep] + tail, sep) == [[]] + parts[1..] by {
        assert ([sep] + tail)[1..] == tail;
      }
      assert parts[0] + [sep] + tail == parts[0] + ([sep] + tail);
      SplitAfterWord(parts[0], [sep] + tail, sep);
      assert parts[0] + [] == parts[0];
      assert ([[]] + parts[1..])[1..] == parts[1..];
      assert parts == [parts[0]] + parts[1..];
    }
  }

  /** A string without `sep` splits into itself alone. */
  lemma SplitWithoutSeparator(s: string, sep: char)
    requires sep !in s
    ensures Split(s, sep) == [s]
  {
    SplitJoin([s], sep);
  }

  /** Drops the empty pieces at the end of `parts`, keeping everything before them. */
  function DropTrailingEmpty(parts: seq<string>): (r: seq<string>)
    ensures r <= parts
    ensures forall i :: |r| <= i < |parts| ==> parts[i] == []
    ensures r == [] || r[|r| - 1] != []
  {
    if parts != [] && parts[|parts| - 1] == [] then DropTrailingEmpty(parts[..|parts| - 1]) else parts
  }

  /**
   * `s.split(sep)` for a separator that is a single ordinary character: a
   * string without `sep` comes back whole (even when empty); otherwise the
   * pieces between separators, with the empty pieces at the end removed.
   */
  function JavaSplit(s: string, sep: char): (r: seq<string>)
    ensures sep !in s ==> r == [s]
    ensures sep in s ==> r <= Split(s, sep)
    ensures sep in s ==> forall i :: |r| <= i < |Split(s, sep)| ==> Split(s, sep)[i] == []
    ensures sep in s ==> r == [] || r[|r| - 1] != []
    ensures forall i :: 0 <= i < |r| ==> sep !in r[i]
  {
    if sep !in s then [s] else DropTrailingEmpty(Split(s, sep))
  }
}
