/** The per-comment pipeline of `InkBot` (inkbot.py:118-204): the token guard, the
    dedupe check, the matching loops, the twenty-attempt reply loop, and the
    failure handler that closes the store before the bot restarts. */
module Inkbot {
  import opened Common
  import Tokens
  import Rules
  import Store

  /** `retries = 20` (inkbot.py:176). */
  const MAX_ATTEMPTS: nat := 20

  datatype Comment = Comment(id: string, body: string)

  /** What one `comment.reply(output)` call does: it returns the new reply, or raises. */
  datatype PostOutcome = Posted(reply: string) | Failed

  /** One call of `comment.reply`: the comment answered and the body sent. */
  datatype Post = Post(commentId: string, body: string)

  datatype SkipReason = NoToken | AlreadyReplied | NoMatch

  /** Why control reaches `___handle_exception`. */
  datatype Cause =
    | RuleFault(fault: Rules.Fault)  // an exception from the matching loops
    | UnboundName                    // the name error for `e` at inkbot.py:189
    | FeedFailure                    // an exception from the comment stream itself
    | RetriesExhausted               // the intended ending after twenty failures

  /** How `__comment_action` leaves: it returns quietly, or it raises.  `Replied`
      is the intended ending of a successful reply (see IntendedPublish). */
  datatype Step = Skipped(reason: SkipReason) | Replied | Raised(cause: Cause)

  /** What processing one comment does: how it ends, the store afterwards, the
      number of waits in the retry loop and the calls of `comment.reply`, in order. */
  datatype Effect = Effect(step: Step, store: map<string, string>, waits: nat, posts: seq<Post>)

  function Repeat(p: Post, n: nat): (r: seq<Post>)
    ensures |r| == n && forall k :: 0 <= k < n ==> r[k] == p
  {
    seq(n, _ => p)
  }

  /** The first attempt that succeeds, if any. */
  function FirstPosted(outcomes: seq<PostOutcome>): (r: Option<nat>)
    ensures r.Some? ==> r.value < |outcomes| && outcomes[r.value].Posted?
    ensures r.Some? ==> forall j :: 0 <= j < r.value ==> outcomes[j].Failed?
    ensures r.None? ==> forall j :: 0 <= j < |outcomes| ==> outcomes[j].Failed?
  {
    if outcomes == [] then None
    else if outcomes[0].Posted? then Some(0)
    else
      match FirstPosted(outcomes[1..])
      case None => None
      case Some(k) => Some(k + 1)
  }

  /** The retry loop of inkbot.py:176-189 as written: attempts until the first
      success or twenty failures, a wait after every failure, the store updated by
      `__reply_to` on success, and in every case the name error at line 189. */
  function Publish(id: string, body: string, store: map<string, string>, outcomes: seq<PostOutcome>): Effect
    requires |outcomes| >= MAX_ATTEMPTS
  {
    match FirstPosted(outcomes[..MAX_ATTEMPTS])
    case Some(k) => Effect(Raised(UnboundName), store[id := outcomes[k].reply], k, Repeat(Post(id, body), k + 1))
    case None => Effect(Raised(UnboundName), store, MAX_ATTEMPTS, Repeat(Post(id, body), MAX_ATTEMPTS))
  }

  /** The retry loop as its comment at inkbot.py:188 says it is meant: only running
      out of retries is treated as an exception. */
  function IntendedPublish(id: string, body: string, store: map<string, string>, outcomes: seq<PostOutcome>): Effect
    requires |outcomes| >= MAX_ATTEMPTS
  {
    var e := Publish(id, body, store, outcomes);
    e.(step := if FirstPosted(outcomes[..MAX_ATTEMPTS]).Some? then Replied else Raised(RetriesExhausted))
  }

  /** `__comment_action` (inkbot.py:141-189) for comment `c`, given the rules, the
      store, the pattern searcher and the outcomes of successive reply attempts. */
  function ActionSpec(
    version: int, inks: seq<Rules.InkFields>, store: map<string, string>,
    c: Comment, search: Rules.Searcher, outcomes: seq<PostOutcome>): Effect
    requires |outcomes| >= MAX_ATTEMPTS
  {
    if !Tokens.Search(c.body) then Effect(Skipped(NoToken), store, 0, [])
    else if c.id in store then Effect(Skipped(AlreadyReplied), store, 0, [])
    else
      match Rules.Output(version, inks, Tokens.Tokens(c.body), search)
      case Err(f) => Effect(Raised(RuleFault(f)), store, 0, [])
      case Ok(out) =>
        if out == "" then Effect(Skipped(NoMatch), store, 0, [])
        else Publish(c.id, out, store, outcomes)
  }

  // ---------------------------------------------------------------------------
  // Properties of one comment.

  /** `store'` is `store`, or `store` plus one entry for the new key `id`. */
  predicate GainsAtMost(store: map<string, string>, store': map<string, string>, id: string) {
    store' == store || (id !in store && id in store' && store' == store[id := store'[id]])
  }

  /** The retry loop makes between one and twenty attempts, all with the same body;
      every attempt but the last failed, and fewer than twenty means the last one
      succeeded; there is one wait per failed attempt, including a wait after the
      last failure; the store gains exactly the successful attempt's reply. */
  lemma PublishSpec(id: string, body: string, store: map<string, string>, outcomes: seq<PostOutcome>)
    requires |outcomes| >= MAX_ATTEMPTS
    ensures var e := Publish(id, body, store, outcomes);
      var n := |e.posts|;
      && 1 <= n <= MAX_ATTEMPTS
      && (forall k :: 0 <= k < n ==> e.posts[k] == Post(id, body))
      && (forall k :: 0 <= k < n - 1 ==> outcomes[k].Failed?)
      && (n < MAX_ATTEMPTS ==> outcomes[n - 1].Posted?)
      && e.waits == (if outcomes[n - 1].Posted? then n - 1 else n)
      && e.store == (if outcomes[n - 1].Posted? then store[id := outcomes[n - 1].reply] else store)
      && e.step == Raised(UnboundName)
  {
    var o := outcomes[..MAX_ATTEMPTS];
    assert forall k :: 0 <= k < MAX_ATTEMPTS ==> o[k] == outcomes[k];
  }

  /** A comment without any `[[...]]` token is skipped before the store is
      consulted: no reply is attempted and the store is unchanged. */
  lemma NoTokenNoWork(
    version: int, inks: seq<Rules.InkFields>, store: map<string, string>,
    c: Comment, search: Rules.Searcher, outcomes: seq<PostOutcome>)
    requires |outcomes| >= MAX_ATTEMPTS
    requires Tokens.Tokens(c.body) == []
    ensures ActionSpec(version, inks, store, c, search, outcomes) == Effect(Skipped(NoToken), store, 0, [])
  {
    Tokens.SearchIffTokens(c.body);
  }

  /** A comment already in the store is neither matched nor answered, so a
      malformed rule does not even surface. */
  lemma KnownIdNoWork(
    version: int, inks: seq<Rules.InkFields>, store: map<string, string>,
    c: Comment, search: Rules.Searcher, outcomes: seq<PostOutcome>)
    requires |outcomes| >= MAX_ATTEMPTS
    requires c.id in store
    ensures var e := ActionSpec(version, inks, store, c, search, outcomes);
      e.step.Skipped? && e.store == store && e.waits == 0 && e.posts == []
  {
  }

  /** A reply is attempted exactly when the comment has a token, is new, every
      rule is well formed, and some (token, rule) pair matches; the body sent is
      then the rendering of all matching pairs, nothing pruned. */
  lemma ReplyOnlyWhenMatched(
    version: int, inks: seq<Rules.InkFields>, links: seq<Rules.Link>, store: map<string, string>,
    c: Comment, search: Rules.Searcher, outcomes: seq<PostOutcome>)
    requires |outcomes| >= MAX_ATTEMPTS
    requires Rules.Resolved(version, inks) == Ok(links)
    requires Rules.AllCompile(links, Tokens.Tokens(c.body), search)
    ensures var e := ActionSpec(version, inks, store, c, search, outcomes);
      var hits := Rules.Hits(links, Tokens.Tokens(c.body), search);
      && (e.posts != [] <==> c.id !in store && hits != [])
      && (e.posts != [] ==> forall k :: 0 <= k < |e.posts| ==> e.posts[k] == Post(c.id, Rules.Render(hits)))
  {
    var tokens := Tokens.Tokens(c.body);
    Tokens.SearchIffTokens(c.body);
    Rules.OutputWhenResolved(version, inks, links, tokens, search);
    Rules.RenderEmptyIff(Rules.Hits(links, tokens, search));
    if tokens == [] {
      assert Rules.Hits(links, tokens, search) == [];
    }
    if Tokens.Search(c.body) && c.id !in store && Rules.Render(Rules.Hits(links, tokens, search)) != "" {
      PublishSpec(c.id, Rules.Render(Rules.Hits(links, tokens, search)), store, outcomes);
    }
  }

  /** A malformed rule row aborts every new comment that has a token. */
  lemma MalformedRuleAborts(
    version: int, inks: seq<Rules.InkFields>, store: map<string, string>,
    c: Comment, search: Rules.Searcher, outcomes: seq<PostOutcome>)
    requires |outcomes| >= MAX_ATTEMPTS
    requires Tokens.Tokens(c.body) != [] && c.id !in store
    requires Rules.Resolved(version, inks).Err?
    ensures var e := ActionSpec(version, inks, store, c, search, outcomes);
      e.step.Raised? && e.step.cause.RuleFault? && e.store == store && e.posts == []
  {
    Tokens.SearchIffTokens(c.body);
    Rules.OutputFailsOnMalformedRule(version, inks, Tokens.Tokens(c.body), search);
  }

  /** Whenever a reply was attempted, the comment ends in an exception, so the
      failure handler runs, even when the first attempt succeeded.  Otherwise the
      comment changes nothing.  Every body sent is non-empty, and the store only
      ever gains the answered comment's id. */
  lemma ActionShape(
    version: int, inks: seq<Rules.InkFields>, store: map<string, string>,
    c: Comment, search: Rules.Searcher, outcomes: seq<PostOutcome>)
    requires |outcomes| >= MAX_ATTEMPTS
    ensures var e := ActionSpec(version, inks, store, c, search, outcomes);
      && (e.posts != [] ==> e.step == Raised(UnboundName))
      && (!e.step.Raised? ==> e.step.Skipped? && e.store == store && e.waits == 0 && e.posts == [])
      && (forall k :: 0 <= k < |e.posts| ==> e.posts[k].commentId == c.id && e.posts[k].body != "")
      && |e.posts| <= MAX_ATTEMPTS
      && (e.posts == [] ==> e.store == store)
      && (e.posts != [] ==> GainsAtMost(store, e.store, c.id))
  {
    if Tokens.Search(c.body) && c.id !in store {
      var r := Rules.Output(version, inks, Tokens.Tokens(c.body), search);
      if r.Ok? && r.value != "" {
        PublishSpec(c.id, r.value, store, outcomes);
      }
    }
  }

  /** Round trip: once a reply has been stored for a comment, processing the same
      comment again, with any rules and any reply outcomes, attempts nothing. */
  lemma AnsweredStaysAnswered(
    version: int, inks: seq<Rules.InkFields>, store: map<string, string>,
    c: Comment, search: Rules.Searcher, outcomes: seq<PostOutcome>,
    version': int, inks': seq<Rules.InkFields>, search': Rules.Searcher, outcomes': seq<PostOutcome>)
    requires |outcomes| >= MAX_ATTEMPTS && |outcomes'| >= MAX_ATTEMPTS
    requires ActionSpec(version, inks, store, c, search, outcomes).store != store
    ensures var s' := ActionSpec(version, inks, store, c, search, outcomes).store;
      c.id in s' && ActionSpec(version', inks', s', c, search', outcomes') == ActionSpec(version', inks', s', c, search', outcomes').(posts := [], waits := 0, store := s')
      && ActionSpec(version', inks', s', c, search', outcomes').step.Skipped?
  {
    ActionShape(version, inks, store, c, search, outcomes);
  }

  /** As written, a reply that succeeds at once still ends in the failure handler. */
  lemma SuccessStillRestarts(id: string, body: string, store: map<string, string>, outcomes: seq<PostOutcome>)
    requires |outcomes| >= MAX_ATTEMPTS && outcomes[0].Posted?
    ensures Publish(id, body, store, outcomes).step == Raised(UnboundName)
    ensures Publish(id, body, store, outcomes).store == store[id := outcomes[0].reply]
  {
    assert outcomes[..MAX_ATTEMPTS][0] == outcomes[0];
  }

  /** The intended loop raises exactly when all twenty attempts failed, and
      otherwise agrees with the loop as written. */
  lemma IntendedPublishRestartsOnlyWhenExhausted(id: string, body: string, store: map<string, string>, outcomes: seq<PostOutcome>)
    requires |outcomes| >= MAX_ATTEMPTS
    ensures var e := IntendedPublish(id, body, store, outcomes);
      && (e.step.Raised? <==> forall k :: 0 <= k < MAX_ATTEMPTS ==> outcomes[k].Failed?)
      && (e.step.Raised? ==> e.step.cause == RetriesExhausted && e.store == store && e.waits == MAX_ATTEMPTS)
      && (!e.step.Raised? ==> e.step == Replied && id in e.store)
      && e.(step := Raised(UnboundName)) == Publish(id, body, store, outcomes)
  {
    var o := outcomes[..MAX_ATTEMPTS];
    assert forall k :: 0 <= k < MAX_ATTEMPTS ==> o[k] == outcomes[k];
  }

  // ---------------------------------------------------------------------------
  // One session: `__inkbot_loop` over the comment stream until it raises.

  /** One event of the comment stream: a comment (with the outcomes its reply
      attempts would have), an operator interrupt, or a failure of the stream. */
  datatype FeedItem = Arrived(comment: Comment, outcomes: seq<PostOutcome>) | Interrupted | StreamFailed

  /** How a session ends: still waiting for comments, stopped by the operator with
      the store closed, or restarting through the failure handler with the store
      closed and persisted as `store`. */
  datatype SessionEnd = Listening | Stopped | Restart(cause: Cause, store: map<string, string>)

  datatype SessionEffect = SessionEffect(end: SessionEnd, store: map<string, string>, waits: nat, posts: seq<Post>)

  predicate OraclesCover(feed: seq<FeedItem>) {
    forall k :: 0 <= k < |feed| && feed[k].Arrived? ==> |feed[k].outcomes| >= MAX_ATTEMPTS
  }

  function Session(
    version: int, inks: seq<Rules.InkFields>, store: map<string, string>,
    feed: seq<FeedItem>, search: Rules.Searcher): SessionEffect
    requires OraclesCover(feed)
    decreases |feed|
  {
    if feed == [] then SessionEffect(Listening, store, 0, [])
    else
      match feed[0]
      case Interrupted => SessionEffect(Stopped, store, 0, [])
      case StreamFailed => SessionEffect(Restart(FeedFailure, store), store, 0, [])
      case Arrived(c, outs) =>
        var e := ActionSpec(version, inks, store, c, search, outs);
        if e.step.Raised? then SessionEffect(Restart(e.step.cause, e.store), e.store, e.waits, e.posts)
        else
          assert OraclesCover(feed[1..]) by {
            assert forall k :: 0 <= k < |feed| - 1 ==> feed[1..][k] == feed[k + 1];
          }
          var rest := Session(version, inks, e.store, feed[1..], search);
          SessionEffect(rest.end, rest.store, e.waits + rest.waits, e.posts + rest.posts)
  }

  /** A session answers at most one comment: all its reply attempts, at most
      twenty, carry the same comment and body, and the store gains at most that
      one id; entries are never changed or removed.  Only a restart or the
      operator ends it before the stream does. */
  lemma {:induction false} SessionAtMostOneReply(
    version: int, inks: seq<Rules.InkFields>, store: map<string, string>,
    feed: seq<FeedItem>, search: Rules.Searcher)
    requires OraclesCover(feed)
    ensures var s := Session(version, inks, store, feed, search);
      && |s.posts| <= MAX_ATTEMPTS
      && (forall k :: 0 <= k < |s.posts| ==> s.posts[k] == s.posts[0])
      && (s.posts != [] ==> s.end.Restart?)
      && (s.posts == [] ==> s.store == store)
      && (s.posts != [] ==> GainsAtMost(store, s.store, s.posts[0].commentId))
      && (s.end.Restart? ==> s.end.store == s.store)
    decreases |feed|
  {
    if feed != [] && feed[0].Arrived? {
      var c, outs := feed[0].comment, feed[0].outcomes;
      ActionShape(version, inks, store, c, search, outs);
      var e := ActionSpec(version, inks, store, c, search, outs);
      if !e.step.Raised? {
        assert OraclesCover(feed[1..]) by {
          assert forall k :: 0 <= k < |feed| - 1 ==> feed[1..][k] == feed[k + 1];
        }
        SessionAtMostOneReply(version, inks, e.store, feed[1..], search);
      } else if e.posts != [] {
        assert e.posts[0].commentId == c.id;
        assert forall k :: 0 <= k < |e.posts| ==> e.posts[k] == e.posts[0] by {
          Rules.RenderEmptyIff([]);
          if Tokens.Search(c.body) && c.id !in store {
            var r := Rules.Output(version, inks, Tokens.Tokens(c.body), search);
            if r.Ok? && r.value != "" {
              PublishSpec(c.id, r.value, store, outs);
            }
          }
        }
      }
    }
  }

  /** Restart round trip: a comment answered in one session is skipped by the next
      session, which reopens the store the failure handler closed. */
  lemma ReplayAfterRestartSkipped(
    version: int, inks: seq<Rules.InkFields>, store: map<string, string>,
    c: Comment, outcomes: seq<PostOutcome>, search: Rules.Searcher,
    version': int, inks': seq<Rules.InkFields>, outcomes': seq<PostOutcome>, search': Rules.Searcher)
    requires |outcomes| >= MAX_ATTEMPTS && |outcomes'| >= MAX_ATTEMPTS
    requires Session(version, inks, store, [Arrived(c, outcomes)], search).store != store
    ensures var s := Session(version, inks, store, [Arrived(c, outcomes)], search);
      && s.end.Restart?
      && Session(version', inks', s.end.store, [Arrived(c, outcomes')], search').posts == []
  {
    var e := ActionSpec(version, inks, store, c, search, outcomes);
    ActionShape(version, inks, store, c, search, outcomes);
    AnsweredStaysAnswered(version, inks, store, c, search, outcomes, version', inks', search', outcomes');
  }

  // ---------------------------------------------------------------------------
  // The bot itself.

  class Bot {
    const version: int
    var inklist: seq<Rules.InkFields>
    var postList: Store.PostList
    /** How many times the retry loop has slept `wait_time`. */
    var waits: nat
    /** Every call of `comment.reply` so far, in order. */
    var posts: seq<Post>

    /** The state `start` sets up: the downloaded rules and the opened store. */
    constructor (version: int, inklist: seq<Rules.InkFields>, postList: Store.PostList)
      ensures this.version == version && this.inklist == inklist && this.postList == postList
      ensures waits == 0 && posts == []
    {
      this.version := version;
      this.inklist := inklist;
      this.postList := postList;
      waits := 0;
      posts := [];
    }

    /** `__reply_to` (inkbot.py:130-138): one call of `comment.reply`; when it
        returns, the comment id is stored with the reply. */
    method ReplyTo(c: Comment, output: string, outcome: PostOutcome) returns (posted: bool)
      requires !postList.closed
      modifies this`posts, postList
      ensures posts == old(posts) + [Post(c.id, output)]
      ensures posted == outcome.Posted?
      ensures postList.entries == if outcome.Posted? then old(postList.entries)[c.id := outcome.reply] else old(postList.entries)
      ensures !postList.closed
    {
      posts := posts + [Post(c.id, output)];
      match outcome
      case Posted(reply) =>
        postList.Put(c.id, reply);
        posted := true;
      case Failed =>
        posted := false;
    }

    /** The lookups of inkbot.py:159-166 for one rule row: its wrapped pattern,
        its name and its link target, or the exception the first missing field raises. */
    method ResolveInk(ink: Rules.InkFields) returns (r: Result<Rules.Link, Rules.Fault>)
      ensures r == Rules.Resolve(version, ink)
    {
      if ink.regex.None? {
        return Err(Rules.MissingRegex);
      }
      var tempReg := Rules.Wrap(ink.regex.value);
      if ink.name.None? {
        return Err(Rules.MissingName);
      }
      var inkName := ink.name.value;
      var inkUrl: string;
      if version == 4 && ink.scanned.Some? {
        if |ink.scanned.value| == 0 {
          return Err(Rules.EmptyScannedPage);
        }
        if ink.scanned.value[0].url.None? {
          return Err(Rules.MissingScannedUrl);
        }
        inkUrl := ink.scanned.value[0].url.value;
      } else {
        if ink.imgur.None? {
          return Err(Rules.MissingImgur);
        }
        inkUrl := ink.imgur.value;
      }
      return Ok(Rules.Link(tempReg, inkName, inkUrl));
    }

    /** One iteration of the inner loop of `__comment_action` (inkbot.py:159-172):
        the rule is resolved and its pattern searched for in the token; a hit
        yields the rule's link line. */
    method RuleStep(ink: Rules.InkFields, token: string, search: Rules.Searcher)
      returns (fault: Option<Rules.Fault>, hit: bool, inkLinkText: string)
      ensures fault.Some? ==> Rules.PairStep(version, ink, token, search) == Err(fault.value)
      ensures fault.None? ==> Rules.PairStep(version, ink, token, search) == Ok(if hit then inkLinkText else "")
      ensures hit ==> inkLinkText != ""
    {
      hit, inkLinkText := false, "";
      var link := ResolveInk(ink);
      if link.Err? {
        return Some(link.error), hit, inkLinkText;
      }
      inkLinkText := Rules.LinkLine(link.value.name, link.value.url);
      var verdict := search(link.value.pattern, token);
      if verdict == Rules.Invalid {
        return Some(Rules.BadPattern), hit, inkLinkText;
      }
      hit := verdict == Rules.Hit;
      fault := None;
    }

    /** The inner loop of `__comment_action` (inkbot.py:157-172) for one token:
        every rule in order appends its link line to `output` when its pattern is
        found in the token, or the first malformed rule or pattern raises. */
    method MatchToken(token: string, search: Rules.Searcher, output0: string, found0: bool)
      returns (output: string, foundMatch: bool, fault: Option<Rules.Fault>)
      requires found0 == (output0 != "")
      ensures fault.None? ==> Rules.Row(version, inklist, token, search).Ok?
      ensures fault.None? ==> output == output0 + Rules.Row(version, inklist, token, search).value
      ensures fault.Some? ==> Rules.Row(version, inklist, token, search) == Err(fault.value)
      ensures foundMatch == (output != "")
    {
      output, foundMatch, fault := output0, found0, None;
      var inks := inklist;
      ghost var row := "";
      for j := 0 to |inks|
        invariant Rules.Row(version, inks[..j], token, search) == Ok(row)
        invariant output == output0 + row
        invariant foundMatch == (output != "")
      {
        var stepFault, hit, inkLinkText := RuleStep(inks[j], token, search);
        if stepFault.Some? {
          Rules.RowAbortAt(version, inks, token, j, search);
          return output, foundMatch, stepFault;
        }
        Rules.RowStep(version, inks, token, j, search);
        if hit {
          AppendAssoc(output0, row, inkLinkText);
          foundMatch := true;
          output := output + inkLinkText;
          row := row + inkLinkText;
        } else {
          assert row + "" == row;
        }
      }
      assert inks[..|inks|] == inks;
    }

    /** The matching loops of `__comment_action` (inkbot.py:153-172): the `output`
        built from every token and every rule, and `found_match`, or the exception
        a malformed rule or pattern raises. */
    method BuildOutput(matchList: seq<string>, search: Rules.Searcher) returns (output: string, foundMatch: bool, fault: Option<Rules.Fault>)
      ensures fault.None? ==> Rules.Output(version, inklist, matchList, search) == Ok(output)
      ensures fault.Some? ==> Rules.Output(version, inklist, matchList, search) == Err(fault.value)
      ensures foundMatch == (output != "")
    {
      output := "";
      foundMatch := false;
      fault := None;
      for i := 0 to |matchList|
        invariant Rules.Output(version, inklist, matchList[..i], search) == Ok(output)
        invariant foundMatch == (output != "")
        invariant fault.None?
      {
        output, foundMatch, fault := MatchToken(matchList[i], search, output, foundMatch);
        if fault.Some? {
          Rules.OutputAbortAt(version, inklist, matchList, i, search);
          return;
        }
        assert matchList[..i + 1][..i] == matchList[..i] && matchList[..i + 1][i] == matchList[i];
      }
      assert matchList[..|matchList|] == matchList;
    }

    /** The retry loop of inkbot.py:176-189: up to twenty calls of `__reply_to`,
        a wait after each failure, then the call of the failure handler with `e`,
        which is unbound there and so raises. */
    method RetryReply(c: Comment, output: string, outcomes: seq<PostOutcome>) returns (step: Step)
      requires !postList.closed
      requires |outcomes| >= MAX_ATTEMPTS
      modifies this`waits, this`posts, postList
      ensures var e := Publish(c.id, output, old(postList.entries), outcomes);
        && step == e.step && postList.entries == e.store
        && waits == old(waits) + e.waits && posts == old(posts) + e.posts
      ensures !postList.closed
    {
      var retries := MAX_ATTEMPTS;
      while retries > 0
        invariant 0 <= retries <= MAX_ATTEMPTS
        invariant forall k :: 0 <= k < MAX_ATTEMPTS - retries ==> outcomes[k].Failed?
        invariant postList.entries == old(postList.entries) && !postList.closed
        invariant waits == old(waits) + (MAX_ATTEMPTS - retries)
        invariant posts == old(posts) + Repeat(Post(c.id, output), MAX_ATTEMPTS - retries)
      {
        var posted := ReplyTo(c, output, outcomes[MAX_ATTEMPTS - retries]);
        if posted {
          assert FirstPosted(outcomes[..MAX_ATTEMPTS]) == Some(MAX_ATTEMPTS - retries) by {
            var o := outcomes[..MAX_ATTEMPTS];
            assert forall k :: 0 <= k <= MAX_ATTEMPTS - retries ==> o[k] == outcomes[k];
          }
          break;
        }
        waits := waits + 1;  // time.sleep(self.wait_time)
        retries := retries - 1;
      }
      if retries == 0 {
        var o := outcomes[..MAX_ATTEMPTS];
        assert forall k :: 0 <= k < MAX_ATTEMPTS ==> o[k] == outcomes[k];
        assert FirstPosted(o).None?;
      }
      step := Raised(UnboundName);
    }

    /** `__comment_action` (inkbot.py:141-189). */
    method CommentAction(c: Comment, search: Rules.Searcher, outcomes: seq<PostOutcome>) returns (step: Step)
      requires !postList.closed
      requires |outcomes| >= MAX_ATTEMPTS
      modifies this`waits, this`posts, postList
      ensures var e := ActionSpec(version, inklist, old(postList.entries), c, search, outcomes);
        && step == e.step && postList.entries == e.store
        && waits == old(waits) + e.waits && posts == old(posts) + e.posts
      ensures !postList.closed
    {
      var text := c.body;
      var sid := c.id;
      if !Tokens.Search(text) {
        return Skipped(NoToken);
      }
      var known := postList.Contains(sid);
      if known {
        return Skipped(AlreadyReplied);
      }
      var matchList := Tokens.Tokens(text);
      var output, foundMatch, fault := BuildOutput(matchList, search);
      if fault.Some? {
        return Raised(RuleFault(fault.value));
      }
      if foundMatch {
        step := RetryReply(c, output, outcomes);
        return;
      }
      return Skipped(NoMatch);
    }

    /** `___handle_exception` (inkbot.py:118-125): close the store; the sleep and
        the fresh `start` are the restart the result stands for. */
    method HandleException(cause: Cause) returns (end: SessionEnd)
      modifies postList
      ensures postList.closed && postList.entries == old(postList.entries)
      ensures end == Restart(cause, postList.entries)
    {
      postList.Close();
      end := Restart(cause, postList.entries);
    }

    /** `__inkbot_loop` (inkbot.py:191-204) over a finite prefix of the stream. */
    method InkbotLoop(feed: seq<FeedItem>, search: Rules.Searcher) returns (end: SessionEnd)
      requires !postList.closed && OraclesCover(feed)
      modifies this`waits, this`posts, postList
      ensures var s := Session(version, inklist, old(postList.entries), feed, search);
        && end == s.end && postList.entries == s.store
        && waits == old(waits) + s.waits && posts == old(posts) + s.posts
      ensures postList.closed <==> !end.Listening?
    {
      ghost var store := postList.entries;
      var i := 0;
      while i < |feed|
        invariant 0 <= i <= |feed|
        invariant !postList.closed && postList.entries == store && waits == old(waits) && posts == old(posts)
        invariant OraclesCover(feed[i..])
        invariant Session(version, inklist, store, feed, search) == Session(version, inklist, store, feed[i..], search)
      {
        assert feed[i..][0] == feed[i] && feed[i..][1..] == feed[i + 1..];
        match feed[i]
        case Interrupted =>
          // KeyboardInterrupt or SystemExit: close the store and re-raise.
          postList.Close();
          return Stopped;
        case StreamFailed =>
          end := HandleException(FeedFailure);
          return;
        case Arrived(c, outs) =>
          var step := CommentAction(c, search, outs);
          if step.Raised? {
            end := HandleException(step.cause);
            return;
          }
          ActionShape(version, inklist, store, c, search, outs);
        i := i + 1;
      }
      return Listening;
    }
  }
}
