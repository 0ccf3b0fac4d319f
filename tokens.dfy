/** The token pattern `\[\[.*?\]\]` of inkbot.py, as `re.search` and `re.findall`
    apply it to a comment body: an opening `[[`, the shortest run of non-newline
    characters, and the first `]]` after it.  Matches are found leftmost first,
    and scanning resumes where the previous match ended. */
module Tokens {
  import opened Common

  /** A match of the token pattern: the half-open span [start, end) of the body. */
  datatype Span = Span(start: nat, end: nat)

  predicate OpensAt(s: string, i: nat) {
    i + 1 < |s| && s[i] == '[' && s[i + 1] == '['
  }

  predicate ClosesAt(s: string, k: nat) {
    k + 1 < |s| && s[k] == ']' && s[k + 1] == ']'
  }

  /** The lazy `.*?` followed by `\]\]`, started at `k`: at each position the
      engine first tries `]]`, and otherwise consumes one character, which `.`
      refuses when it is a newline.  The result is where the closing `]]` begins. */
  function CloseFrom(s: string, k: nat): (r: Option<nat>)
    requires k <= |s|
    ensures r.Some? ==> k <= r.value && ClosesAt(s, r.value)
    ensures r.Some? ==> forall m :: k <= m < r.value ==> s[m] != '\n' && !ClosesAt(s, m)
    ensures r.None? ==> forall m :: k <= m && ClosesAt(s, m) ==> exists n :: k <= n < m && s[n] == '\n'
    decreases |s| - k
  {
    if ClosesAt(s, k) then Some(k)
    else if k < |s| && s[k] != '\n' then CloseFrom(s, k + 1)
    else None
  }

  /** The match of the token pattern that starts at `i`, if any, given by its end. */
  function MatchAt(s: string, i: nat): (r: Option<nat>)
    ensures r.Some? ==> OpensAt(s, i) && i + 4 <= r.value <= |s| && ClosesAt(s, r.value - 2)
    ensures r.Some? ==> forall m :: i + 2 <= m < r.value - 2 ==> s[m] != '\n' && !ClosesAt(s, m)
    ensures r.None? && OpensAt(s, i) ==>
      forall m :: i + 2 <= m && ClosesAt(s, m) ==> exists n :: i + 2 <= n < m && s[n] == '\n'
  {
    if OpensAt(s, i) then
      match CloseFrom(s, i + 2)
      case Some(k) => Some(k + 2)
      case None => None
    else None
  }

  /** `re.search(regex, text)` is truthy: a match starts somewhere. */
  predicate Search(s: string) {
    exists p :: 0 <= p < |s| && MatchAt(s, p).Some?
  }

  /** Every span is a match found at or after `pos`, and the spans are
      non-overlapping and in left-to-right order. */
  predicate WellFormed(s: string, pos: nat, spans: seq<Span>) {
    && (forall k :: 0 <= k < |spans| ==> pos <= spans[k].start && MatchAt(s, spans[k].start) == Some(spans[k].end))
    && (forall k :: 0 <= k < |spans| - 1 ==> spans[k].end <= spans[k + 1].start)
  }

  /** `re.findall` from position `pos` on. */
  function FindFrom(s: string, pos: nat): (r: seq<Span>)
    requires pos <= |s|
    ensures WellFormed(s, pos, r)
    decreases |s| - pos
  {
    if pos == |s| then []
    else
      match MatchAt(s, pos)
      case Some(e) => [Span(pos, e)] + FindFrom(s, e)
      case None => FindFrom(s, pos + 1)
  }

  function FindAll(s: string): seq<Span> {
    FindFrom(s, 0)
  }

  /** The strings `re.findall(regex, text)` returns (inkbot.py:152). */
  function Tokens(s: string): (ts: seq<string>)
    ensures |ts| == |FindAll(s)|
  {
    var spans := FindAll(s);
    seq(|spans|, k requires 0 <= k < |spans| => s[spans[k].start..spans[k].end])
  }

  /** The shape of one token: `[[`, an inside without newline in which no `]]`
      begins, and the closing `]]`. */
  predicate IsToken(t: string) {
    && |t| >= 4
    && t[..2] == "[[" && t[|t| - 2..] == "]]"
    && (forall m :: 2 <= m < |t| - 2 ==> t[m] != '\n')
    && (forall m :: 2 <= m < |t| - 2 ==> !(t[m] == ']' && t[m + 1] == ']'))
  }

  /** Every extracted token has the token shape and is the body's text at its span. */
  lemma TokenShape(s: string, k: nat)
    requires k < |Tokens(s)|
    ensures IsToken(Tokens(s)[k])
    ensures Tokens(s)[k] == s[FindAll(s)[k].start..FindAll(s)[k].end]
  {
    var sp := FindAll(s)[k];
    var t := Tokens(s)[k];
    assert MatchAt(s, sp.start) == Some(sp.end);
    forall m | 2 <= m < |t| - 2
      ensures t[m] != '\n' && !(t[m] == ']' && t[m + 1] == ']')
    {
      assert t[m] == s[sp.start + m] && t[m + 1] == s[sp.start + m + 1];
      assert !ClosesAt(s, sp.start + m);
    }
  }

  /** One step of `re.findall`: a match at `pos` is taken and scanning resumes
      at its end; otherwise scanning moves on by one character. */
  lemma FindFromStep(s: string, pos: nat)
    requires pos < |s|
    ensures MatchAt(s, pos).Some? ==>
      FindFrom(s, pos) == [Span(pos, MatchAt(s, pos).value)] + FindFrom(s, MatchAt(s, pos).value)
    ensures MatchAt(s, pos).None? ==> FindFrom(s, pos) == FindFrom(s, pos + 1)
  {
  }

  /** Some span of `spans` contains position `p`. */
  predicate Covers(spans: seq<Span>, p: nat) {
    exists k :: 0 <= k < |spans| && spans[k].start <= p < spans[k].end
  }

  lemma CoversHead(x: Span, rest: seq<Span>, p: nat)
    requires x.start <= p < x.end
    ensures Covers([x] + rest, p)
  {
    assert ([x] + rest)[0] == x;
  }

  lemma CoversTail(x: Span, rest: seq<Span>, p: nat)
    requires Covers(rest, p)
    ensures Covers([x] + rest, p)
  {
    var k :| 0 <= k < |rest| && rest[k].start <= p < rest[k].end;
    assert ([x] + rest)[k + 1] == rest[k];
  }

  /** Completeness of `findall`: every position at which a match could start is
      covered by one of the spans found, so positions between matches start none. */
  lemma {:induction false} FindFromCovers(s: string, pos: nat, p: nat)
    requires pos <= p < |s| && MatchAt(s, p).Some?
    ensures Covers(FindFrom(s, pos), p)
    decreases |s| - pos
  {
    FindFromStep(s, pos);
    var m := MatchAt(s, pos);
    if m.Some? {
      if p < m.value {
        CoversHead(Span(pos, m.value), FindFrom(s, m.value), p);
      } else {
        FindFromCovers(s, m.value, p);
        CoversTail(Span(pos, m.value), FindFrom(s, m.value), p);
      }
    } else {
      assert p != pos;
      FindFromCovers(s, pos + 1, p);
    }
  }

  /** FindFromCovers for the whole body: the leftmost-first, non-overlapping
      matches of `re.findall` leave no match start uncovered. */
  lemma FindAllCovers(s: string, p: nat)
    requires p < |s| && MatchAt(s, p).Some?
    ensures exists k :: 0 <= k < |FindAll(s)| && FindAll(s)[k].start <= p < FindAll(s)[k].end
  {
    FindFromCovers(s, 0, p);
    assert FindAll(s) == FindFrom(s, 0);
  }

  /** `re.search` succeeds exactly when `re.findall` finds a token, so the guard at
      inkbot.py:148 and the list at inkbot.py:152 agree. */
  lemma SearchIffTokens(s: string)
    ensures Search(s) <==> Tokens(s) != []
  {
    if Search(s) {
      var p :| 0 <= p < |s| && MatchAt(s, p).Some?;
      FindAllCovers(s, p);
    }
    if Tokens(s) != [] {
      var sp := FindAll(s)[0];
      assert MatchAt(s, sp.start) == Some(sp.end);
      assert sp.start < |s|;
    }
  }
}
