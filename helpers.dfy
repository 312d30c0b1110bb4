/** The pure helpers of utils/helpers.py: e-mail shape validation and the next free record id. */
module Helpers {

  /** Position of the first occurrence of `c` in `s`. */
  function FirstIndex(s: string, c: char): (i: nat)
    requires c in s
    ensures i < |s| && s[i] == c
    ensures c !in s[..i]
  {
    if s[0] == c then 0
    else
      var j := FirstIndex(s[1..], c);
      assert s[..j + 1] == [s[0]] + s[1..][..j];
      j + 1
  }

  /** The pieces of `s` between separators, joined back again by `sep`. */
  function Join(parts: seq<string>, sep: char): string
    requires |parts| >= 1
  {
    if |parts| == 1 then parts[0] else parts[0] + [sep] + Join(parts[1..], sep)
  }

  /** Python's `s.split(sep)` for a one-character separator: the maximal separator-free
      pieces of `s`, in order; there is one more piece than there are separators. */
  function Split(s: string, sep: char): (parts: seq<string>)
    ensures |parts| >= 1
    ensures |parts| == 1 <==> sep !in s
    ensures forall k :: 0 <= k < |parts| ==> sep !in parts[k]
    ensures Join(parts, sep) == s
    decreases |s|
  {
    if sep !in s then [s]
    else
      var i := FirstIndex(s, sep);
      var rest := Split(s[i + 1..], sep);
      var parts := [s[..i]] + rest;
      assert parts[1..] == rest;
      assert s == s[..i] + [sep] + s[i + 1..];
      parts
  }

  /** The piece `split('@')[1]` is the text strictly between the first `@` and the next one
      (or the end of the string). */
  lemma SecondPiece(s: string, sep: char)
    requires sep in s
    ensures var a := FirstIndex(s, sep);
            var t := s[a + 1..];
            Split(s, sep)[1] == if sep in t then t[..FirstIndex(t, sep)] else t
  {
  }

  /** The first occurrence is the only position holding `c` with no `c` before it. */
  lemma FirstIndexUnique(s: string, c: char, a: nat)
    requires a < |s| && s[a] == c && c !in s[..a]
    ensures a == FirstIndex(s, c)
  {
  }

  /** Some `.` of `t` comes before every `@` of `t`. */
  ghost predicate DotBeforeAt(t: string) {
    exists i :: 0 <= i < |t| && t[i] == '.' && '@' !in t[..i]
  }

  /** The text before the first `@` of `t` (all of `t` when there is none) contains a `.`
      exactly when some `.` of `t` has no `@` before it. */
  lemma DotBeforeSeparator(t: string)
    ensures var seg := if '@' in t then t[..FirstIndex(t, '@')] else t;
            '.' in seg <==> DotBeforeAt(t)
  {
  }

  /** The meaning of `ValidateEmail`: a first `@` at `a`, then a `.` at `d > a` with no
      `@` in between. */
  ghost predicate DotAfterFirstAt(email: string) {
    exists a, d :: 0 <= a < d < |email| && email[a] == '@' && '@' !in email[..a]
                   && email[d] == '.' && '@' !in email[a + 1..d]
  }

  /** The piece `validate_email` inspects, described by positions after the first `@`. */
  lemma DomainPieceHasDot(email: string)
    requires '@' in email
    ensures '.' in Split(email, '@')[1] <==> DotBeforeAt(email[FirstIndex(email, '@') + 1..])
  {
    var t := email[FirstIndex(email, '@') + 1..];
    SecondPiece(email, '@');
    DotBeforeSeparator(t);
  }

  /** A dot seen from the first `@` is a dot seen in the whole address, and back. */
  lemma DotPositionsAgree(email: string)
    requires '@' in email
    ensures DotBeforeAt(email[FirstIndex(email, '@') + 1..]) <==> DotAfterFirstAt(email)
  {
    var a := FirstIndex(email, '@');
    var t := email[a + 1..];
    if DotBeforeAt(t) {
      var i :| 0 <= i < |t| && t[i] == '.' && '@' !in t[..i];
      assert email[a + 1 + i] == '.' && email[a + 1..a + 1 + i] == t[..i];
    }
    if DotAfterFirstAt(email) {
      var a', d :| 0 <= a' < d < |email| && email[a'] == '@' && '@' !in email[..a']
                   && email[d] == '.' && '@' !in email[a' + 1..d];
      FirstIndexUnique(email, '@', a');
      assert t[d - a - 1] == '.' && t[..d - a - 1] == email[a + 1..d];
    }
  }

  /** `validate_email`: an `@` is present and the piece `split('@')[1]` after the first `@` (up to
      the next `@` or the end) contains a `.`. It accepts exactly the strings with a first `@` at
      some `a` and a `.` at some `d > a` with no `@` in between. */
  predicate ValidateEmail(email: string): (ok: bool)
    ensures ok <==> DotAfterFirstAt(email)
  {
    if '@' !in email then false
    else
      DomainPieceHasDot(email);
      DotPositionsAgree(email);
      '.' in Split(email, '@')[1]
  }

  /** The two shapes of the accepted and rejected address: a dot after the `@` passes, a domain
      without one fails. */
  lemma ValidateEmailExamples()
    ensures ValidateEmail("a@b.c")
    ensures !ValidateEmail("a@bc")
  {
    FirstIndexUnique("a@b.c", '@', 1);
    SecondPiece("a@b.c", '@');
    assert "a@b.c"[2..] == "b.c" && "b.c"[1] == '.';
    FirstIndexUnique("a@bc", '@', 1);
    SecondPiece("a@bc", '@');
    assert "a@bc"[2..] == "bc";
  }

  /** The largest of a non-empty list of ids. */
  function MaxOf(ids: seq<int>): (m: int)
    requires |ids| > 0
    ensures m in ids
    ensures forall k :: 0 <= k < |ids| ==> ids[k] <= m
  {
    if |ids| == 1 then ids[0]
    else
      var rest := MaxOf(ids[1..]);
      assert forall k :: 1 <= k < |ids| ==> ids[k] == ids[1..][k - 1];
      if ids[0] >= rest then ids[0] else rest
  }

  /** `get_next_id`: 1 for an empty table, otherwise one more than the largest id. */
  function NextId(ids: seq<int>): (r: int)
    ensures |ids| == 0 ==> r == 1
    ensures |ids| > 0 ==> r - 1 in ids
    ensures forall k :: 0 <= k < |ids| ==> ids[k] < r
  {
    if |ids| == 0 then 1 else MaxOf(ids) + 1
  }

  /** The id `get_next_id` hands out is not already in use. */
  lemma NextIdIsFresh(ids: seq<int>)
    ensures NextId(ids) !in ids
  {
  }
}
