/** The ink rules downloaded from Airtable and what the inner loops of
    `InkBot.__comment_action` (inkbot.py:155-172) make of them: for every token
    and every rule, in that order, the rule's link line when its wrapped pattern
    is found in the token. */
module Rules {
  import opened Common

  /** One attachment of the `Scanned Page` field, a dictionary that may lack `url`. */
  datatype Attachment = Attachment(url: Option<string>)

  /** The `fields` of one Airtable row; a field the row lacks is `None`. */
  datatype InkFields = InkFields(
    regex: Option<string>,             // 'Brand+ink regex'
    name: Option<string>,              // 'Name'
    imgur: Option<string>,             // 'Imgur Address'
    scanned: Option<seq<Attachment>>)  // 'Scanned Page'

  /** What a malformed row or pattern raises while a comment is processed. */
  datatype Fault =
    | MissingRegex       // KeyError: 'Brand+ink regex'
    | MissingName        // KeyError: 'Name'
    | EmptyScannedPage   // IndexError: 'Scanned Page' is an empty list
    | MissingScannedUrl  // KeyError: 'url' in the first attachment
    | MissingImgur       // KeyError: 'Imgur Address'
    | BadPattern         // re.error: the wrapped pattern does not compile

  /** The outcome of `re.search(pattern, token, flags=re.IGNORECASE)`.  The rule
      patterns are data, so the regular-expression engine is supplied from outside. */
  datatype Verdict = Hit | Miss | Invalid

  type Searcher = (string, string) -> Verdict

  /** A well-formed rule: its wrapped pattern and the text of its link. */
  datatype Link = Link(pattern: string, name: string, url: string)

  /** One emitted line: the token and rule indices it came from, and the rule. */
  datatype Pair = Pair(token: nat, rule: nat, link: Link)

  /** `'\[\[' + pattern + '\]\]'`: the pattern must match a whole bracketed token. */
  function Wrap(p: string): (r: string)
    ensures |r| == |p| + 8 && r[4..|r| - 4] == p
    ensures r[..4] == "\\[\\[" && r[|r| - 4..] == "\\]\\]"
  {
    "\\[\\[" + p + "\\]\\]"
  }

  /** `f"* [{ink_name}]({ink_url})   \n"`: a Markdown list item ending in a hard break. */
  function LinkLine(name: string, url: string): (r: string)
    ensures |r| == |name| + |url| + 10 > 0
    ensures r[0] == '*' && r[|r| - 1] == '\n'
  {
    "* [" + name + "](" + url + ")   \n"
  }

  /** The link target (inkbot.py:162-165). */
  function LinkUrl(version: int, f: InkFields): Result<string, Fault> {
    if version == 4 && f.scanned.Some? then
      if |f.scanned.value| == 0 then Err(EmptyScannedPage)
      else
        match f.scanned.value[0].url
        case Some(u) => Ok(u)
        case None => Err(MissingScannedUrl)
    else
      match f.imgur
      case Some(u) => Ok(u)
      case None => Err(MissingImgur)
  }

  /** The target is the first scanned page's url exactly when the API version is
      4 and the row has a `Scanned Page` field, and the Imgur address otherwise;
      the row is rejected exactly when the chosen field is unusable. */
  lemma LinkUrlChoice(version: int, f: InkFields)
    ensures version == 4 && f.scanned.Some? && |f.scanned.value| > 0 ==>
      LinkUrl(version, f) == (if f.scanned.value[0].url.Some? then Ok(f.scanned.value[0].url.value) else Err(MissingScannedUrl))
    ensures version == 4 && f.scanned.Some? && |f.scanned.value| == 0 ==> LinkUrl(version, f) == Err(EmptyScannedPage)
    ensures !(version == 4 && f.scanned.Some?) ==>
      LinkUrl(version, f) == (if f.imgur.Some? then Ok(f.imgur.value) else Err(MissingImgur))
    ensures forall g: Option<string> :: version == 4 && f.scanned.Some? ==> LinkUrl(version, f.(imgur := g)) == LinkUrl(version, f)
  {
  }

  /** The three lookups of inkbot.py:159-165, in the order the source makes them. */
  function Resolve(version: int, f: InkFields): Result<Link, Fault> {
    if f.regex.None? then Err(MissingRegex)
    else if f.name.None? then Err(MissingName)
    else
      match LinkUrl(version, f)
      case Err(e) => Err(e)
      case Ok(u) => Ok(Link(Wrap(f.regex.value), f.name.value, u))
  }

  /** One iteration of the inner loop: the text it appends to `output`, or what it raises. */
  function PairStep(version: int, f: InkFields, token: string, search: Searcher): Result<string, Fault> {
    match Resolve(version, f)
    case Err(e) => Err(e)
    case Ok(l) =>
      match search(l.pattern, token)
      case Hit => Ok(LinkLine(l.name, l.url))
      case Miss => Ok("")
      case Invalid => Err(BadPattern)
  }

  /** Run `a`, then `b`: the first exception wins, otherwise the texts concatenate. */
  function Then(a: Result<string, Fault>, b: Result<string, Fault>): Result<string, Fault> {
    if a.Err? then a else if b.Err? then b else Ok(a.value + b.value)
  }

  /** The inner loop over the rules for one token. */
  function Row(version: int, inks: seq<InkFields>, token: string, search: Searcher): Result<string, Fault> {
    if inks == [] then Ok("")
    else Then(Row(version, inks[..|inks| - 1], token, search), PairStep(version, inks[|inks| - 1], token, search))
  }

  /** Both loops: the final `output`, or what the first failing step raises. */
  function Output(version: int, inks: seq<InkFields>, tokens: seq<string>, search: Searcher): Result<string, Fault> {
    if tokens == [] then Ok("")
    else Then(Output(version, inks, tokens[..|tokens| - 1], search), Row(version, inks, tokens[|tokens| - 1], search))
  }

  // ---------------------------------------------------------------------------
  // Reference definitions: the rules resolved on their own, the matching pairs in
  // order, and their rendering.

  /** All rows resolved in order, or the fault of the first malformed one. */
  function Resolved(version: int, inks: seq<InkFields>): (r: Result<seq<Link>, Fault>)
    ensures r.Ok? ==> |r.value| == |inks|
    ensures r.Ok? ==> forall j :: 0 <= j < |inks| ==> Resolve(version, inks[j]) == Ok(r.value[j])
  {
    if inks == [] then Ok([])
    else
      match Resolved(version, inks[..|inks| - 1])
      case Err(e) => Err(e)
      case Ok(ls) =>
        match Resolve(version, inks[|inks| - 1])
        case Err(e) => Err(e)
        case Ok(l) => Ok(ls + [l])
  }

  /** The rules (with indices below |links|) whose pattern the searcher reports found in `token`. */
  function RowHits(links: seq<Link>, token: string, i: nat, search: Searcher): seq<Pair> {
    if links == [] then []
    else
      RowHits(links[..|links| - 1], token, i, search)
      + (if search(links[|links| - 1].pattern, token) == Hit then [Pair(i, |links| - 1, links[|links| - 1])] else [])
  }

  /** Every (token, rule) pair that matches, tokens outer and rules inner. */
  function Hits(links: seq<Link>, tokens: seq<string>, search: Searcher): seq<Pair> {
    if tokens == [] then []
    else Hits(links, tokens[..|tokens| - 1], search) + RowHits(links, tokens[|tokens| - 1], |tokens| - 1, search)
  }

  /** One link line per pair, in order. */
  function Render(ps: seq<Pair>): string {
    if ps == [] then "" else Render(ps[..|ps| - 1]) + LinkLine(ps[|ps| - 1].link.name, ps[|ps| - 1].link.url)
  }

  /** Lexicographic order on (token, rule): strictly increasing means sorted and without repeats. */
  predicate Before(p: Pair, q: Pair) {
    p.token < q.token || (p.token == q.token && p.rule < q.rule)
  }

  /** No pattern raised an error on any token. */
  predicate AllCompile(links: seq<Link>, tokens: seq<string>, search: Searcher) {
    forall i, j :: 0 <= i < |tokens| && 0 <= j < |links| ==> search(links[j].pattern, tokens[i]) != Invalid
  }

  lemma {:induction false} RowHitsExact(links: seq<Link>, token: string, i: nat, search: Searcher)
    ensures forall p :: p in RowHits(links, token, i, search) <==>
      p.token == i && p.rule < |links| && p.link == links[p.rule] && search(links[p.rule].pattern, token) == Hit
    ensures forall a, b :: 0 <= a < b < |RowHits(links, token, i, search)| ==>
      RowHits(links, token, i, search)[a].rule < RowHits(links, token, i, search)[b].rule
  {
    if links != [] {
      var init := links[..|links| - 1];
      RowHitsExact(init, token, i, search);
      assert forall j :: 0 <= j < |init| ==> init[j] == links[j];
    }
  }

  /** The matching pairs are exactly the (token, rule) pairs on which the searcher
      reports a hit, each once, in token-then-rule order. */
  lemma {:induction false} HitsExact(links: seq<Link>, tokens: seq<string>, search: Searcher)
    ensures forall p :: p in Hits(links, tokens, search) <==>
      p.token < |tokens| && p.rule < |links| && p.link == links[p.rule] && search(links[p.rule].pattern, tokens[p.token]) == Hit
    ensures forall a, b :: 0 <= a < b < |Hits(links, tokens, search)| ==>
      Before(Hits(links, tokens, search)[a], Hits(links, tokens, search)[b])
  {
    if tokens != [] {
      var init := tokens[..|tokens| - 1];
      var n := |tokens| - 1;
      HitsExact(links, init, search);
      RowHitsExact(links, tokens[n], n, search);
      assert forall i :: 0 <= i < |init| ==> init[i] == tokens[i];
      var h, r := Hits(links, init, search), RowHits(links, tokens[n], n, search);
      assert Hits(links, tokens, search) == h + r;
      forall a, b | 0 <= a < b < |h + r| ensures Before((h + r)[a], (h + r)[b]) {
        if b >= |h| && a < |h| {
          assert h[a] in h && r[b - |h|] in r;
        }
      }
    }
  }

  lemma {:induction false} RenderAppend(a: seq<Pair>, b: seq<Pair>)
    ensures Render(a + b) == Render(a) + Render(b)
    decreases |b|
  {
    if b != [] {
      var b' := b[..|b| - 1];
      var last := b[|b| - 1];
      assert (a + b)[..|a + b| - 1] == a + b';
      assert (a + b)[|a + b| - 1] == last;
      RenderAppend(a, b');
      calc {
        Render(a + b);
        Render(a + b') + LinkLine(last.link.name, last.link.url);
        Render(a) + Render(b') + LinkLine(last.link.name, last.link.url);
        Render(a) + (Render(b') + LinkLine(last.link.name, last.link.url));
      }
    } else {
      assert a + b == a;
    }
  }

  /** The output is empty exactly when no pair matched, so `found_match` and a
      non-empty output coincide (inkbot.py:153, inkbot.py:171-174). */
  lemma {:induction false} RenderEmptyIff(ps: seq<Pair>)
    ensures Render(ps) == "" <==> ps == []
  {
    if ps != [] {
      var last := ps[|ps| - 1];
      assert |LinkLine(last.link.name, last.link.url)| > 0;
    }
  }

  lemma {:induction false} RowWhenResolved(version: int, inks: seq<InkFields>, links: seq<Link>, token: string, i: nat, search: Searcher)
    requires Resolved(version, inks) == Ok(links)
    requires forall j :: 0 <= j < |links| ==> search(links[j].pattern, token) != Invalid
    ensures Row(version, inks, token, search) == Ok(Render(RowHits(links, token, i, search)))
  {
    if inks != [] {
      var m := |inks| - 1;
      ResolvedSnoc(version, inks, links);
      var ls := links[..m];
      assert forall j :: 0 <= j < |ls| ==> ls[j] == links[j];
      RowWhenResolved(version, inks[..m], ls, token, i, search);
      var l := links[m];
      var tail := if search(l.pattern, token) == Hit then [Pair(i, m, l)] else [];
      assert RowHits(links, token, i, search) == RowHits(ls, token, i, search) + tail;
      RenderAppend(RowHits(ls, token, i, search), tail);
    }
  }

  /** Resolving a non-empty list of rows resolves its prefix and its last row. */
  lemma ResolvedSnoc(version: int, inks: seq<InkFields>, links: seq<Link>)
    requires inks != [] && Resolved(version, inks) == Ok(links)
    ensures |links| == |inks|
    ensures Resolved(version, inks[..|inks| - 1]) == Ok(links[..|inks| - 1])
    ensures Resolve(version, inks[|inks| - 1]) == Ok(links[|inks| - 1])
  {
    var m := |inks| - 1;
    var ls :| Resolved(version, inks[..m]) == Ok(ls);
    assert links == ls + [links[m]];
    assert links[..m] == ls;
  }

  /** Resolving the rows succeeds exactly when every row resolves on its own;
      otherwise the fault is that of the first row that does not. */
  lemma {:induction false} ResolvedOkIff(version: int, inks: seq<InkFields>)
    ensures Resolved(version, inks).Ok? <==> forall j :: 0 <= j < |inks| ==> Resolve(version, inks[j]).Ok?
    ensures Resolved(version, inks).Err? ==>
      exists j :: 0 <= j < |inks| && Resolve(version, inks[j]) == Err(Resolved(version, inks).error)
        && forall k :: 0 <= k < j ==> Resolve(version, inks[k]).Ok?
  {
    if inks != [] {
      var m := |inks| - 1;
      ResolvedOkIff(version, inks[..m]);
      assert forall j :: 0 <= j < m ==> inks[..m][j] == inks[j];
      var prev := Resolved(version, inks[..m]);
      if prev.Err? {
        var j :| 0 <= j < m && Resolve(version, inks[..m][j]) == Err(prev.error)
          && forall k :: 0 <= k < j ==> Resolve(version, inks[..m][k]).Ok?;
        assert Resolve(version, inks[j]) == Err(Resolved(version, inks).error);
      } else if Resolve(version, inks[m]).Err? {
        assert Resolve(version, inks[m]) == Err(Resolved(version, inks).error);
      }
    }
  }

  /** When every row is well formed and every pattern compiles, the output is the
      concatenation, tokens outer and rules inner in list order, of one link line
      for every matching pair; nothing is pruned and a rule may repeat. */
  lemma {:induction false} OutputWhenResolved(version: int, inks: seq<InkFields>, links: seq<Link>, tokens: seq<string>, search: Searcher)
    requires Resolved(version, inks) == Ok(links)
    requires AllCompile(links, tokens, search)
    ensures Output(version, inks, tokens, search) == Ok(Render(Hits(links, tokens, search)))
  {
    if tokens != [] {
      var n := |tokens| - 1;
      var init := tokens[..n];
      assert forall i :: 0 <= i < n ==> init[i] == tokens[i];
      OutputWhenResolved(version, inks, links, init, search);
      RowWhenResolved(version, inks, links, tokens[n], n, search);
      RenderAppend(Hits(links, init, search), RowHits(links, tokens[n], n, search));
    }
  }

  lemma {:induction false} RowFailsWhenUnresolved(version: int, inks: seq<InkFields>, token: string, search: Searcher)
    requires Resolved(version, inks).Err?
    ensures Row(version, inks, token, search).Err?
  {
    var m := |inks| - 1;
    if Resolved(version, inks[..m]).Err? {
      RowFailsWhenUnresolved(version, inks[..m], token, search);
    }
  }

  lemma {:induction false} RowFailsOnInvalid(version: int, inks: seq<InkFields>, links: seq<Link>, token: string, j: nat, search: Searcher)
    requires Resolved(version, inks) == Ok(links)
    requires j < |links| && search(links[j].pattern, token) == Invalid
    ensures Row(version, inks, token, search).Err?
  {
    var m := |inks| - 1;
    ResolvedSnoc(version, inks, links);
    if j < m {
      assert links[..m][j] == links[j];
      RowFailsOnInvalid(version, inks[..m], links[..m], token, j, search);
    }
  }

  lemma {:induction false} OutputFailsOnRow(version: int, inks: seq<InkFields>, tokens: seq<string>, i: nat, search: Searcher)
    requires i < |tokens| && Row(version, inks, tokens[i], search).Err?
    ensures Output(version, inks, tokens, search).Err?
  {
    var n := |tokens| - 1;
    if i < n {
      assert tokens[..n][i] == tokens[i];
      OutputFailsOnRow(version, inks, tokens[..n], i, search);
    }
  }

  /** A malformed row aborts every comment that has a token, whether or not its
      pattern would have matched: the lookups happen before the search. */
  lemma OutputFailsOnMalformedRule(version: int, inks: seq<InkFields>, tokens: seq<string>, search: Searcher)
    requires tokens != [] && Resolved(version, inks).Err?
    ensures Output(version, inks, tokens, search).Err?
  {
    RowFailsWhenUnresolved(version, inks, tokens[0], search);
    OutputFailsOnRow(version, inks, tokens, 0, search);
  }

  /** A pattern that raises on some token aborts the comment. */
  lemma OutputFailsOnBadPattern(version: int, inks: seq<InkFields>, links: seq<Link>, tokens: seq<string>, search: Searcher)
    requires Resolved(version, inks) == Ok(links)
    requires !AllCompile(links, tokens, search)
    ensures Output(version, inks, tokens, search).Err?
  {
    var i, j :| 0 <= i < |tokens| && 0 <= j < |links| && search(links[j].pattern, tokens[i]) == Invalid;
    RowFailsOnInvalid(version, inks, links, tokens[i], j, search);
    OutputFailsOnRow(version, inks, tokens, i, search);
  }

  /** Once a step of the inner loop raises, the loop over the remaining rules
      raises the same exception. */
  lemma {:induction false} RowSticky(version: int, inks: seq<InkFields>, m: nat, token: string, search: Searcher)
    requires m <= |inks| && Row(version, inks[..m], token, search).Err?
    ensures Row(version, inks, token, search) == Row(version, inks[..m], token, search)
    decreases |inks| - m
  {
    if m < |inks| {
      var n := |inks| - 1;
      assert inks[..n][..m] == inks[..m];
      RowSticky(version, inks[..n], m, token, search);
    } else {
      assert inks[..m] == inks;
    }
  }

  lemma {:induction false} OutputSticky(version: int, inks: seq<InkFields>, tokens: seq<string>, m: nat, search: Searcher)
    requires m <= |tokens| && Output(version, inks, tokens[..m], search).Err?
    ensures Output(version, inks, tokens, search) == Output(version, inks, tokens[..m], search)
  {
    if m < |tokens| {
      var n := |tokens| - 1;
      assert tokens[..n][..m] == tokens[..m];
      OutputSticky(version, inks, tokens[..n], m, search);
    } else {
      assert tokens[..m] == tokens;
    }
  }

  /** The exception raised at rule `j` is the one the inner loop raises. */
  lemma RowAbortAt(version: int, inks: seq<InkFields>, token: string, j: nat, search: Searcher)
    requires j < |inks|
    requires Row(version, inks[..j], token, search).Ok?
    requires PairStep(version, inks[j], token, search).Err?
    ensures Row(version, inks, token, search) == PairStep(version, inks[j], token, search)
  {
    assert inks[..j + 1][..j] == inks[..j] && inks[..j + 1][j] == inks[j];
    RowSticky(version, inks, j + 1, token, search);
  }

  /** A step of the inner loop that does not raise appends its text. */
  lemma RowStep(version: int, inks: seq<InkFields>, token: string, j: nat, search: Searcher)
    requires j < |inks|
    requires Row(version, inks[..j], token, search).Ok?
    requires PairStep(version, inks[j], token, search).Ok?
    ensures Row(version, inks[..j + 1], token, search)
         == Ok(Row(version, inks[..j], token, search).value + PairStep(version, inks[j], token, search).value)
  {
    assert inks[..j + 1][..j] == inks[..j] && inks[..j + 1][j] == inks[j];
  }

  /** The exception raised by the inner loop of token `i` is the one the whole comment raises. */
  lemma OutputAbortAt(version: int, inks: seq<InkFields>, tokens: seq<string>, i: nat, search: Searcher)
    requires i < |tokens|
    requires Output(version, inks, tokens[..i], search).Ok?
    requires Row(version, inks, tokens[i], search).Err?
    ensures Output(version, inks, tokens, search) == Row(version, inks, tokens[i], search)
  {
    assert tokens[..i + 1][..i] == tokens[..i] && tokens[..i + 1][i] == tokens[i];
    OutputSticky(version, inks, tokens, i + 1, search);
  }

  /** The exception raised at rule `j` of token `i` is the one the whole comment raises. */
  lemma AbortAt(version: int, inks: seq<InkFields>, tokens: seq<string>, i: nat, j: nat, search: Searcher)
    requires i < |tokens| && j < |inks|
    requires Output(version, inks, tokens[..i], search).Ok?
    requires Row(version, inks[..j], tokens[i], search).Ok?
    requires PairStep(version, inks[j], tokens[i], search).Err?
    ensures Output(version, inks, tokens, search) == PairStep(version, inks[j], tokens[i], search)
  {
    RowAbortAt(version, inks, tokens[i], j, search);
    OutputAbortAt(version, inks, tokens, i, search);
  }
}
