# inkbot, modelled in Dafny

inkbot is a Reddit bot for fountain-pen ink. It reads every new comment in a
subreddit and looks for bracketed tokens such as `[[Pilot Iroshizuku]]`. It
matches each token against a table of ink rules downloaded from Airtable, and
replies with a Markdown list of links to swatch images for every rule that
matches. A `shelve` database records which comments have been answered. When
anything goes wrong, a failure handler closes that database, sleeps and starts
the bot again. Beside the bot, `utils.py` has configuration helpers: the data
directory, writing a configuration without its secrets, and completing a
configuration by prompting the user.

The model covers the following:

- the token scanner;
- the matching loops and the link lines;
- the dedupe gate;
- the twenty-attempt reply loop;
- the failure handler and the comment loop;
- the paginated Airtable download;
- the three configuration helpers.

Files and modules:

- `common.dfy` (`Common`): `Option`, `Result`, Python's `in` on strings, ASCII `str.lower`.
- `tokens.dfy` (`Tokens`): the fixed token pattern `\[\[.*?\]\]` as a concrete lazy scanner. It gives `re.search` and `re.findall` as leftmost-first, non-overlapping, shortest matches that contain no newline.
- `rules.dfy` (`Rules`): the rule fields and their lookups, in the source's order. The URL choice, the inner and outer matching loops as functions, and a reference definition (the list of matching pairs and its rendering), with the lemmas connecting them.
- `store.dfy` (`Store`): the `shelve` store as a class `PostList` that holds a map from comment id to reply and a closed flag.
- `inkbot.dfy` (`Inkbot`):
  - the specification functions `Publish`, `ActionSpec` and `Session`;
  - the class `Bot`, whose methods (`ReplyTo`, `ResolveInk`, `BuildOutput`, `RetryReply`, `CommentAction`, `HandleException`, `InkbotLoop`) follow the source's loops statement by statement and are proved equal to those functions.
- `airtable.dfy` (`Airtable`): `download_airtable` as a `while offset` loop over a given sequence of responses.
- `utils.dfy` (`Utils`):
  - `get_inkbot_dir`;
  - `write_config`, which strips secrets in place in nested loops;
  - `populate_config`, which fills a configuration in place in nested loops.

  Each mutating helper is proved against a function, and lemmas state what that function does.

External services and I/O are passed in as parameters:

- Reddit's `comment.reply`: one `PostOutcome` for each attempt.
- The regular-expression engine applied to the rule patterns, which are data: a `Searcher` returning `Hit`, `Miss` or `Invalid`.
- The Airtable responses: a sequence of `Page`s.
- The user at the prompts: an `Asker` function from the text shown, and whether the input is hidden, to the answer typed.
- The platform, environment and home directory.
- Whether the output file exists.

Behaviour of the code the model keeps:

- Every (token, rule) pair whose pattern matches emits one link line, duplicates included.
- A rule row that lacks a field raises `KeyError` from inside the matching loops. The comment then ends in the failure handler, even when no token of the comment would match that row.
- A rule pattern that does not compile raises while a comment is processed.
- Every exception from `comment.reply` is retried.
- For a body without a token, the store is not consulted.
- Every failed attempt is followed by a wait, the twentieth included.
- After the retry loop, the call at `inkbot.py:189` names `e`. In Python 3 that name is unbound there, so every reply attempt ends in the failure handler, even a successful one. See "## Findings".

## Model

| member | source | states |
|---|---|---|
| Tokens.Search | inkbot.py:148 | `re.search` with the token pattern: a match starts at some position of the body. Its meaning is fixed by `Tokens.SearchIffTokens`. |
| Tokens.OpensAt | inkbot.py:142 | The literal `\[\[` of the token pattern: two opening brackets at a position. |
| Tokens.ClosesAt | inkbot.py:142 | The literal `\]\]` of the token pattern: two closing brackets at a position. |
| Tokens.CloseFrom | inkbot.py:142 | The lazy `.*?\]\]` from a position ends at the first `]]` that no newline precedes. It fails exactly when a newline comes before every `]]`. |
| Tokens.MatchAt | inkbot.py:142 | A match at `i` opens with `[[`, is at least four characters long and ends with the first `]]` after the opening. Its inside holds no newline. With no such `]]`, nothing matches at `i`. |
| Tokens.FindFrom | inkbot.py:152 | The spans `re.findall` returns from a position are matches at or after it. They do not overlap and are in left-to-right order. |
| Tokens.Tokens | inkbot.py:152 | There is one token string for each span found. |
| Tokens.TokenShape | inkbot.py:142-152 | Every extracted token is the body's text at its span. It begins with `[[` and ends with `]]`, and its inside has no newline and no `]]`. |
| Tokens.FindFromCovers | inkbot.py:152 | Completeness of the scan: every position where a match could start lies inside one of the spans found. |
| Tokens.FindAllCovers | inkbot.py:152 | The same completeness for the whole body. |
| Tokens.SearchIffTokens | inkbot.py:148-152 | `re.search` succeeds exactly when `re.findall` returns a token, so the guard and the token list agree. |
| Rules.Wrap | inkbot.py:159 | The wrapped pattern is the rule pattern between `\[\[` in front and `\]\]` behind, four characters each. |
| Rules.LinkLine | inkbot.py:166 | A link line is never empty: it starts with `*` and ends with a newline, and its length is fixed by the name and the URL. |
| Rules.LinkUrl | inkbot.py:162-165 | The link target: the first scanned page's `url` for version 4 and a row with `Scanned Page`, the Imgur address otherwise, or the `KeyError`/`IndexError` of the field looked up. Its cases are stated by `Rules.LinkUrlChoice`. |
| Rules.Resolve | inkbot.py:159-165 | The three lookups of one rule row in the source's order: the pattern, the name, then the target. The first missing one is the exception. |
| Rules.PairStep | inkbot.py:159-172 | One iteration of the inner loop: the rule's exception, or the link line when its pattern is found in the token and nothing on a miss, or the exception of a pattern that does not compile. |
| Rules.Row | inkbot.py:157-172 | The inner loop over the rules for one token: the steps in rule order, the first exception winning, the texts concatenated. |
| Rules.Output | inkbot.py:155-172 | Both loops: the rows of the tokens in token order, the first exception winning. |
| Rules.LinkUrlChoice | inkbot.py:162-165 | The URL is the first scanned page's `url` exactly when the version is 4 and the row has `Scanned Page`, and otherwise `Imgur Address`. The Imgur field is then irrelevant. An empty attachment list, a missing `url` or a missing Imgur address is the matching error. |
| Rules.Resolved | inkbot.py:159-165 | Resolving all rows gives one link per row, and each link is that row's lookup. |
| Rules.ResolvedOkIff | inkbot.py:159-165 | Resolving all rows succeeds exactly when every row has its fields. Otherwise the fault is that of the first row lacking one. |
| Rules.ResolvedSnoc | inkbot.py:157-165 | When all rows resolve, so do all but the last, to the first links, and the last row resolves to the last link. |
| Rules.RowHitsExact | inkbot.py:157-172 | For one token, the matching pairs are exactly the rules the searcher reports a hit for, each once and in rule order. |
| Rules.HitsExact | inkbot.py:155-172 | A pair is listed exactly when its rule hits its token, each pair once. The pairs are strictly ordered by token, then by rule. |
| Rules.RenderAppend | inkbot.py:172 | Rendering distributes over concatenation. |
| Rules.RenderEmptyIff | inkbot.py:171-174 | The output is empty exactly when no pair matched, so `found_match` and a non-empty output coincide. |
| Rules.RowWhenResolved | inkbot.py:157-172 | When the rows resolve and no pattern is invalid, the inner loop appends the rendering of that token's matching pairs. |
| Rules.OutputWhenResolved | inkbot.py:155-172 | When every row resolves and every pattern compiles, the output is one link line for each matching pair, tokens outer and rules inner. Nothing is pruned. |
| Rules.RowFailsWhenUnresolved | inkbot.py:159-165 | A malformed row makes the inner loop raise. |
| Rules.RowFailsOnInvalid | inkbot.py:168 | A pattern that raises on the token makes the inner loop raise. |
| Rules.OutputFailsOnRow | inkbot.py:155-157 | An exception in any token's inner loop aborts the whole output. |
| Rules.OutputFailsOnMalformedRule | inkbot.py:155-165 | A malformed row aborts every comment that has a token, matching or not. |
| Rules.OutputFailsOnBadPattern | inkbot.py:168 | A pattern invalid on some token aborts the comment. |
| Rules.RowSticky | inkbot.py:157-172 | Once a step of the inner loop raises, the loop's result is that exception. |
| Rules.OutputSticky | inkbot.py:155-172 | Once a token's loop raises, the output is that exception. |
| Rules.RowStep | inkbot.py:157-172 | A step of the inner loop that does not raise appends its text to what the loop has built. |
| Rules.RowAbortAt | inkbot.py:157-172 | The first step of the inner loop that raises decides the loop's result. |
| Rules.OutputAbortAt | inkbot.py:155-172 | The first token whose inner loop raises decides the whole output. |
| Rules.AbortAt | inkbot.py:155-172 | The exception raised for rule `j` on token `i` is the one the whole comment raises. |
| Inkbot.Publish | inkbot.py:176-189 | The retry loop as written: the attempts up to the first success among the first 20, one wait per failure, the reply stored on success, and always the name error at the end. Its properties are stated by `Inkbot.PublishSpec`. |
| Inkbot.ActionSpec | inkbot.py:141-189 | `__comment_action` as written: skipped without a token or for a known id, the exception of the matching loops, skipped without a match, and otherwise the retry loop. Its properties are stated by the lemmas below. |
| Inkbot.FirstPosted | inkbot.py:177-181 | The first successful attempt, if any: every attempt before it failed. With none, every attempt failed. |
| Inkbot.PublishSpec | inkbot.py:176-189 | Between 1 and 20 attempts, all with the same comment and body. Every attempt but the last failed, and fewer than 20 attempts means the last one succeeded. There is one wait per failure. The store gains exactly the successful reply. It always ends in the name error. |
| Inkbot.NoTokenNoWork | inkbot.py:148 | A body without a token is skipped, with no store lookup, no reply, no wait and the store unchanged. |
| Inkbot.KnownIdNoWork | inkbot.py:150 | A comment already in the store is skipped without matching or replying. The store is unchanged. |
| Inkbot.ReplyOnlyWhenMatched | inkbot.py:148-180 | When the rules are well formed, a reply is attempted exactly when the comment has a token, is new and some pair matches. The body sent is the rendering of all matching pairs. |
| Inkbot.MalformedRuleAborts | inkbot.py:150-165 | A malformed rule row makes every new comment with a token raise, with nothing posted and the store unchanged. |
| Inkbot.ActionShape | inkbot.py:141-189 | An attempted reply always raises. A comment that does not raise is skipped and changes nothing. At most 20 posts, all for this comment, all non-empty. The store gains at most this comment's id. |
| Inkbot.AnsweredStaysAnswered | inkbot.py:137-150 | Once a comment's reply is stored, processing it again with any rules and any outcomes is skipped and posts nothing. |
| Inkbot.SuccessStillRestarts | inkbot.py:180-189 | As written, a reply that succeeds at once stores the reply and still raises. |
| Inkbot.IntendedPublishRestartsOnlyWhenExhausted | inkbot.py:188-189 | The intended loop raises exactly when all 20 attempts failed, with the store unchanged after 20 waits. Otherwise it replies and stores the id. In everything else it agrees with the loop as written. |
| Inkbot.Session | inkbot.py:191-204 | The comment loop: comments in stream order until the stream ends, is interrupted, fails, or a comment raises. An exception closes the store and restarts with it. |
| Inkbot.SessionAtMostOneReply | inkbot.py:191-204 | In one session every post carries the same comment and body, at most 20 of them. A post forces a restart. The store gains at most that comment's id, and the restart persists the store. |
| Inkbot.ReplayAfterRestartSkipped | inkbot.py:150 | A comment answered in one session gets no post in the session after the restart. |
| Inkbot.Bot.constructor | inkbot.py:79-96 | The bot `start` sets up: the API version, the downloaded rules and the opened store, with no wait and no post yet. |
| Inkbot.Bot.ReplyTo | inkbot.py:130-138 | One call of `comment.reply` with the output. On success the store maps the comment id to the reply. Otherwise the store is unchanged. |
| Inkbot.Bot.ResolveInk | inkbot.py:159-165 | The lookups of one rule row, in the source's order, equal `Rules.Resolve`. |
| Inkbot.Bot.RuleStep | inkbot.py:159-172 | One iteration of the inner loop computes `Rules.PairStep`: its exception, or a non-empty link line on a hit and nothing on a miss. |
| Inkbot.Bot.MatchToken | inkbot.py:157-172 | The inner loop for one token appends the text of `Rules.Row` to the output, or raises its exception. `found_match` holds exactly when the output is non-empty. |
| Inkbot.Bot.BuildOutput | inkbot.py:153-172 | The nested loops compute `Rules.Output`, giving the output or the first exception. `found_match` holds exactly when the output is non-empty. |
| Inkbot.Bot.RetryReply | inkbot.py:176-189 | The retry loop's store, waits, posts and ending are those of `Publish`. |
| Inkbot.Bot.CommentAction | inkbot.py:141-189 | `__comment_action` ends, and changes the store, waits and posts, as `ActionSpec` says. |
| Inkbot.Bot.HandleException | inkbot.py:118-125 | The handler closes the store without changing its entries and restarts with them. |
| Inkbot.Bot.InkbotLoop | inkbot.py:191-204 | The comment loop ends and changes the state as `Session` says. The store is closed exactly when the loop stopped or restarts. |
| Store.PostList.Open | inkbot.py:96 | `shelve.open` gives an open store holding the persisted entries. |
| Store.PostList.Contains | inkbot.py:150 | Membership of the comment id in the store. |
| Store.PostList.Put | inkbot.py:137-138 | The store maps the key to the value, everything else is unchanged, and the store stays open. |
| Store.PostList.Close | inkbot.py:122 | The store is closed with its entries kept. |
| Airtable.Rows | inkbot.py:32-36 | The rows of a run of pages: the records of each page in fetch order. |
| Airtable.HasMore | inkbot.py:34 | `while offset:` goes on only for a present, non-empty offset, as Python's truthiness gives. |
| Airtable.LastPage | inkbot.py:34 | The download ends at the first response without an offset. Every earlier response has one. |
| Airtable.DownloadAirtable | inkbot.py:30-38 | The first request carries no offset, and each later one carries the previous response's offset. The rows are the records of every fetched page in fetch order, up to and including the first page without an offset. |
| Airtable.RowsAppend | inkbot.py:36 | The rows of two runs of pages are the two rows concatenated. |
| Airtable.RowsExact | inkbot.py:32-36 | Each page's records appear contiguously and unchanged, after those of every earlier page. |
| Common.LowerChar | utils.py:80 | `str.lower` on one ASCII character: no capital is left, a capital becomes its lower-case counterpart, and every other character is kept. |
| Common.Lower | utils.py:80 | `str.lower` on a string: the same length, no capital left, capitals mapped to their counterparts, every other character kept. |
| Common.LowerIdempotent | utils.py:80 | Lower-casing twice is lower-casing once. |
| Utils.IsSecret | utils.py:80 | The secret test: one of `pass`, `secret` and `key` occurs in the lower-cased option name. |
| Utils.IsTest | utils.py:114 | The test-section test: `test` occurs in the section name. |
| Utils.SecretBy | utils.py:80 | An option is a secret as soon as one keyword occurs in its lower-cased name. |
| Utils.PasswordIsSecret | utils.py:80 | `password` is a secret. |
| Utils.ClientSecretIsSecret | utils.py:80 | `client_secret` is a secret. |
| Utils.ApiKeyIsSecret | utils.py:80 | `airtable_api_key` is a secret. |
| Utils.TemplateSecrets | utils.py:80 | `password`, `client_secret` and `airtable_api_key` are secrets. |
| Utils.SecretIgnoresCase | utils.py:80 | The keyword test ignores the case of the option name: a name is a secret exactly when its lower-cased form is. |
| Utils.InkbotDir | utils.py:11-22 | `get_inkbot_dir`: `%APPDATA%` and `inkbot` when "win" occurs in the platform name, or the `KeyError` for `APPDATA`; `~/.local/share/inkbot` otherwise. |
| Utils.InkbotDirShape | utils.py:11-22 | The directory always ends in `inkbot`. Its base is `%APPDATA%` exactly when "win" occurs in the platform name, and `~/.local/share` otherwise. In the model, where the home directory is given, only the first can fail, when `APPDATA` is unset. |
| Utils.DarwinTakesWindowsBranch | utils.py:14-17 | On macOS (`darwin`) the written test picks `%APPDATA%`, and it fails when that variable is unset. |
| Utils.InkbotDirIntendedPlatforms | utils.py:14-22 | The intended test gives `~/.local/share/inkbot` on macOS and Linux and `%APPDATA%\inkbot` on Windows. It agrees with the written one except on names with "win" past the start. |
| Utils.Config.constructor | utils.py:47-48 | A `ConfigParser` holding the given sections, as reading a file leaves it. |
| Utils.StripSecrets | utils.py:76-81 | The configuration with every secret option of every section removed. |
| Utils.StripSecretsSpec | utils.py:76-81 | Stripping keeps every section and every non-secret option with its value, and removes exactly the secret options. |
| Utils.StripSecretsIdempotent | utils.py:76-81 | Stripping twice is stripping once. A configuration is left unchanged exactly when it has no secret option. |
| Utils.PartlyStrippedStep | utils.py:79-81 | One step of the inner loop removes the option from what is kept when it is a secret, and leaves it otherwise. |
| Utils.RemoveSecrets | utils.py:79-81 | The inner loop removes exactly the secret options of its section and touches no other section. |
| Utils.WriteConfig | utils.py:72-83 | An existing file without `overwrite` raises, and the configuration is unchanged. Otherwise the configuration written is unchanged when `secrets` is set, and stripped of its secrets, in place, when it is not. |
| Utils.PromptText | utils.py:122 | The question shown: `Please enter the {option} for {section}` and a prompt marker. |
| Utils.Answer | utils.py:122-126 | The user's answer to a question, given the text shown and whether `getpass` hides the input. |
| Utils.Value | utils.py:120 | `config[section].get(option)`: the value when the section holds the option, and `None` otherwise. |
| Utils.IsSet | utils.py:121 | `opt_val` is truthy: present and not the empty string. |
| Utils.FillOptions | utils.py:119-127 | Filling a section's options keeps the same sections. |
| Utils.ValueUpdate | utils.py:127 | `config[section][option] = opt_val` changes the value of that one option and no other. |
| Utils.WithSection | utils.py:117-118 | Adding a missing section makes it present and changes no option. |
| Utils.TargetIdempotent | utils.py:120-127 | An option whose target value is already in place reaches the same value on a second visit. |
| Utils.FillOptionsValues | utils.py:119-127 | Every listed option gets its own non-empty value or the answer. Every other option of every section is unchanged. |
| Utils.FillOptionsPrompts | utils.py:120-126 | Every question is about a listed option of this section that was missing or empty, and is hidden exactly for secrets. Every such option is asked about, and there are no more questions than options. |
| Utils.UnsetPrompts | utils.py:119-126 | The questions for the missing or empty options, one for each and in option order. |
| Utils.FillOptionsAskedInOrder | utils.py:119-126 | With distinct options, the inner loop asks exactly once for each missing or empty option, in option order. |
| Utils.Populate | utils.py:113-127 | Both loops of `populate_config`: test sections skipped, missing sections added, and each missing or empty option asked about and set. |
| Utils.InTemplateSnoc | utils.py:113-116 | The non-test sections and options of a template are those of its prefix plus its last section, unless that is a test section. |
| Utils.PopulateSections | utils.py:113-118 | Afterwards, every non-test template section exists. No other section is added, and test sections are not added. |
| Utils.PopulateValues | utils.py:119-127 | Every option of a non-test template section keeps a non-empty value and otherwise holds the user's answer. Options and sections outside the template are untouched. |
| Utils.PopulatePromptsSound | utils.py:114-126 | Every question is about a missing or empty option of a non-test template section, and is hidden exactly when the option is a secret. |
| Utils.PopulatePromptsComplete | utils.py:119-126 | Every missing or empty option of a non-test template section is asked about. |
| Utils.FillSection | utils.py:119-127 | The inner loop of `populate_config`, in place, computes `FillOptions`, giving the new configuration and the questions asked. |
| Utils.PopulateConfig | utils.py:113-129 | `populate_config`, in place, computes `Populate`, giving the new configuration and the questions asked. |

## Left out

- Reddit and praw: the login, the comment stream and `comment.reply` itself are network I/O. Each reply attempt is an outcome supplied in advance, and the stream is a finite prefix ending in an interrupt, a stream failure or nothing more.
- The regular-expression engine for the rule patterns loaded from Airtable. These patterns are data, so `re.search(..., flags=re.IGNORECASE)` is the `Searcher` parameter. Case-insensitivity is a property of that parameter, which the model does not constrain. Only the fixed token pattern is modelled concretely.
- `shelve` durability, `sync` and file locking: the store is a map with a closed flag. Replies are modelled as strings, not Reddit comment objects.
- `time.sleep` is a wait counter, and the restart (`start()` called again from the handler, then `exit()`) is the `Restart` result carrying the persisted store. The next session is modelled by calling `Session` again with that store. The re-login and the fresh rule download are not modelled.
- `KeyboardInterrupt` and `SystemExit` are modelled only as closing the store and stopping. The re-raise is not modelled.
- Debug printing and tracebacks.
- An exception raised by the store write inside `__reply_to` after a post has gone out.
- Rows without a `fields` key, and a `Scanned Page` value that is not a list of dictionaries.
- Airtable responses without `records`, and the HTTP client itself.
- Airtable.DownloadAirtable and Airtable.LastPage: a server that always answers with a non-empty offset is not modelled. On such a server the loop at inkbot.py:34-37 never ends. The model requires that some response carries no offset.
- configparser: reading and writing files, the `DEFAULT` section, interpolation, the lower-casing of option names, and its refusal of duplicate sections and options in the template file. The model allows duplicates, which is more general. Only `Utils.FillOptionsAskedInOrder` assumes distinct options.
- Utils.IsSecret: `str.lower` is modelled on ASCII letters only.
- `read_config` and the `TEMPLATE_PATH` file: file I/O only.
- `inkbot_run.py`, which only wires the configuration into the bot and is not part of this model.
- The order in which configparser lists sections and options: `write_config` visits a map's keys in any order. The result does not depend on that order.

## Findings

| source | as written | input that shows it | evidently intended | confidence | as-written member | corrected member |
|---|---|---|---|---|---|---|
| utils.py:14 | `"win" in sys.platform` tests for "win" anywhere in the platform name | `sys.platform == "darwin"` (macOS) takes the Windows branch and raises `KeyError` when `APPDATA` is unset | a Windows test, `sys.platform.startswith("win")`, as the comments at utils.py:15 and utils.py:19 say | not executed | Utils.DarwinTakesWindowsBranch | Utils.InkbotDirIntendedPlatforms |
| inkbot.py:189 | after the retry loop, `self.___handle_exception(e)` runs unconditionally, and in Python 3 `e` is unbound there | a reply that succeeds at the first attempt still raises `UnboundLocalError`, closes the store and restarts the bot | only running out of retries is escalated, as the comment at inkbot.py:188 says | not executed | Inkbot.SuccessStillRestarts | Inkbot.IntendedPublishRestartsOnlyWhenExhausted |

`Utils.InkbotDirIntended` and `Inkbot.IntendedPublish` are the corrected definitions. The lemmas in the last column prove the intended property about them. The model of the running bot (`ActionSpec`, `Session` and the `Bot` methods) keeps the restart the code performs, because that restart decides what the store holds between sessions. `IntendedPublish` is stated against the written `Publish`, so the two models differ only in how a successful reply ends.
