# VisaBot visa lifecycle, in Dafny

VisaBot is a Discord bot. It grants a member a temporary "visa" role on the
authority of a "sponsor", and it revokes the role once it expires. This
project models the visa lifecycle of `visabot/visabot.py` and proves
properties of it.

The model covers four parts of that file:

- **Command routing.** `_parse_command` routes each message by its first
  word. Near misses of a command get a "did you mean" suggestion, using
  Levenshtein distance in place of `nltk.edit_distance`.
- **The three commands.** These are `!sponsor`, `!openvisa` and
  `!closevisa`.
- **Duration parsing.** `parse_duration` turns free text such as
  "3 hrs, 1 min and 30 secs" into seconds.
- **The sweep.** One tick of `_poll_visas` revokes every visa whose expiry
  has passed.

Modules, one file each:

- `Wrappers`: `Option` and `Result`.
- `Text`: the Python `str` operations the bot relies on. These are
  `lower()`, `replace(x, '')`, `split()`, `split(maxsplit=2)` and
  `strip(chars)`.
- `Duration`: `parse_duration`.
  - A specification function `SumOf` gives the exact sum of classified
    tokens.
  - A specification function `Total` follows the loop, with the range checks
    of `timedelta`. A lemma proves it equals `SumOf` unless a value leaves
    that range.
  - An imperative method with the source's loop is proved equal to `Total`.
  - Lemmas give the sum over (value, unit) pairs, the failure cases and
    the docstring example.
- `Quotes`: the regular expression `".*"` used by `!sponsor`.
  - It takes the leftmost match and extends it greedily to the last quote
    of the line.
  - The surrounding quotes are then stripped.
  - The duration text starts `len(role) + 2` characters in.
- `EditDistance`: the Levenshtein recurrence that `nltk.edit_distance`
  computes with its default costs.
- `VisaBot`: the bot itself.
  - `Visa` is a class, because visas are held by identity.
  - `Bot` is a class whose `sponsorRoles` map and `visas` set its methods
    update.
  - `SponsorDecision` is the decision function for `!sponsor`, together
    with routing and suggestions.

Discord is reduced to data:

- A `Message` carries:
  - its author;
  - the names of the author's roles;
  - whether the author is an administrator;
  - the names of the server's roles;
  - its text;
  - its mentions.
- What the bot does is returned as a sequence of `Effect`s:
  - a message sent;
  - a help text for a prompt;
  - a role added or removed;
  - an announcement;
  - an exception that escapes the handler.
- The clock is a parameter `now`, in seconds after `datetime.min`
  (0001-01-01 00:00).
- The two answers that `!openvisa` waits for are parameters.

How the code behaves at its edges, as the model reproduces it:

- A number at the end of a duration (`5`) makes `tokens[i + 1]` raise
  `IndexError`. `_action_sponsor` catches only `ValueError`, so this escapes
  the handler as `Raise(NumberWithoutUnit)`.
- `_validate_role` raises its `ValueError` at line 149, outside the `try`, so
  an author without the sponsor role gets an escaping `NotSponsor`. The help
  "You don't have the correct sponsor role!" at lines 150-152 is never sent.
- A message with fewer than three words makes the unpacking of
  `split(maxsplit=2)` raise, and this escapes too.
- A message with no words at all makes `split()[0]` raise `IndexError`. This
  happens before the prefix is checked, so it also happens for messages that
  are not commands.
- The duration text is `rest[len(role) + 2:]`, stripped. Here `role` is the
  greedy match with every leading and trailing quote stripped.
- A `timedelta` holds at most 999999999 days either way, and a `datetime`
  lies between the years 1 and 9999. A term or a running total of
  `parse_duration` beyond the first, or an expiry beyond the second, raises
  `OverflowError`. That is not a `ValueError`, so it escapes the handler as
  `Raise(Overflow)` and no visa is granted. An example is
  `!sponsor @friend "Tourist" 600000 weeks`.
- The third example of `parse_duration`'s docstring does not match the code.
  The code adds 3 weeks, 2 days, 1.5 hours and 1 second, which is 1992601
  seconds. `DocstringThirdExample` proves this at the token level.

## Model

| member | source | states |
|---|---|---|
| `Text.Lower` | visabot/visabot.py:262 | `lower()` keeps the length and lower-cases each character |
| `Text.Without` | visabot/visabot.py:262 | `replace(',', '')` leaves exactly the characters other than the comma and never lengthens the text |
| `Text.WithoutCounts` | visabot/visabot.py:262 | every comma is deleted, and every other character is kept as often as it occurs |
| `Text.WithoutAppend` | visabot/visabot.py:262 | deleting a character works piece by piece, so the kept characters stay in their order |
| `Text.RemoveAll` | visabot/visabot.py:262 | `replace('and', '')` never lengthens the text |
| `Text.RemoveAllOnlyDeletes` | visabot/visabot.py:262 | `replace('and', '')` only deletes characters: none is added or duplicated |
| `Text.RemoveAllWithoutPattern` | visabot/visabot.py:262 | a text in which `and` never occurs is left as it is |
| `Text.RemoveAllFirstOccurrence` | visabot/visabot.py:262 | the text before the first occurrence of `and` is kept, that occurrence is deleted, and the rest is treated the same way from just after it |
| `Text.Split` | visabot/visabot.py:262 | `split()` skips whitespace, takes the word that follows up to the next whitespace or the end, and goes on after it; the text without words splits into no tokens |
| `Text.SplitWords` | visabot/visabot.py:262 | every token of `split()` is non-empty and has no whitespace, and the tokens put together are exactly the non-whitespace characters of the text |
| `Text.SplitSkipsSpace` | visabot/visabot.py:262 | whitespace in front of a text does not change its tokens |
| `Text.SplitTakesWord` | visabot/visabot.py:262 | a word followed by whitespace or by the end is the first token, and the rest are the tokens of what follows; with `SplitSkipsSpace` and the empty text splitting into nothing, this fixes where `split()` cuts on every text |
| `Text.Trim` | visabot/visabot.py:127 | `strip(chars)` is the slice that starts after the leading run of stripped characters and is followed only by stripped characters, neither end of it is strippable, and a text enclosed in strippable characters loses at least two |
| `Text.Strip` | visabot/visabot.py:137 | `strip()` is `Trim` with whitespace as the stripped characters |
| `Text.ThirdField` | visabot/visabot.py:130 | the third field of `split(maxsplit=2)` exists exactly when there are at least three words, is the suffix of the text that starts at the third word, with its inner and trailing whitespace kept, and splits into the words after the first two |
| `Duration.UnitOf` | visabot/visabot.py:257-261 | a word names unit `u` exactly when it is one of `u`'s words |
| `Duration.InSecondsIsProduct` | visabot/visabot.py:270-279 | each `timedelta` branch adds the value times the seconds of its unit (1, 60, 3600, 86400, 604800) |
| `Duration.NumberOfNumeral` | visabot/visabot.py:266 | `float` reads a typed whole number as that number |
| `Duration.UnitsAreNotNumbers` | visabot/visabot.py:257-268 | no unit word is numeric, so the loop skips the unit after using it |
| `Duration.Number` | visabot/visabot.py:265-268 | `float(tk)` is read as an optional sign and digits with at most one '.', at least one digit in all; any other token is not a number and is skipped |
| `Duration.Tokens` | visabot/visabot.py:262 | the tokens are the text lower-cased, with commas and every `and` deleted, then split on whitespace |
| `Duration.ClassifyAt` | visabot/visabot.py:264-269 | each token is classified on its own, as a number and as a unit word |
| `Duration.SumOf` | visabot/visabot.py:263-282 | the exact sum: each numeric token adds its value in the unit after it; a trailing number is the `IndexError` and an unknown unit the `ValueError`, whichever comes first |
| `Duration.Total` | visabot/visabot.py:263-282 | the loop from a running total: words are skipped, each number takes the next token as its unit, and a term or a new total outside the range of `timedelta` raises `OverflowError` |
| `Duration.ParseDuration` | visabot/visabot.py:235-282 | `parse_duration` returns the duration `Parsed` assigns to the text, and short of an `OverflowError` that is the exact sum `SumOf` of its tokens |
| `Duration.TotalIsSumInRange` | visabot/visabot.py:263-282 | the loop gives the exact sum, or the exact sum's unit error, unless a term or a running total leaves the range of `timedelta`, in which case, and only then, it raises `OverflowError` |
| `Duration.Accumulate` | visabot/visabot.py:263-282 | the loop, with its running total and its range checks on each term and each total, returns exactly `Total` of the tokens from zero |
| `Duration.FailsIffDangling` | visabot/visabot.py:264-281 | the exact sum fails exactly when some numeric token has no known unit after it |
| `Duration.MissingUnitIffLastDangles` | visabot/visabot.py:269 | the exact sum hits the `IndexError` case exactly when the last token is numeric and no earlier number dangles |
| `Duration.NoNumbersNoTime` | visabot/visabot.py:263-268 | a phrase without numeric tokens lasts zero seconds |
| `Duration.SumOfAppend` | visabot/visabot.py:264-281 | a phrase not ending in a number followed by another phrase lasts the sum of both, or fails with the first error |
| `Duration.SumOfTerms` | visabot/visabot.py:264-279 | well-formed (value, unit) pairs last the sum of each value in its unit, with no carrying |
| `Duration.TokensIgnoreCase` | visabot/visabot.py:262 | lower-casing the text first changes no token, so units match in any case |
| `Duration.DocstringThirdExample` | visabot/visabot.py:254-255 | the loop gives 1992601 seconds for the tokens of "3 weeks, 2 days, 1.5 hours, 1 second" |
| `Quotes.MatchEnd` | visabot/visabot.py:124 | a match from a quote ends at the last quote of its line; none exists when the line has no further quote |
| `Quotes.FirstMatch` | visabot/visabot.py:124 | the first match of `".*"` starts at the leftmost quote that has a partner on its line and ends at that line's last quote |
| `Quotes.ExtractFromQuotes` | visabot/visabot.py:121-127 | extraction fails exactly when no two quotes share a line, and a role is at least two characters shorter than the text |
| `Quotes.DurationText` | visabot/visabot.py:136-137 | the duration text is `rest` from `len(role) + 2` on, empty past the end, stripped; it is never longer than `rest` and neither end of it is whitespace |
| `Quotes.QuotedRoleRoundTrip` | visabot/visabot.py:121-137 | for `"R" D` with no quote in `R` or `D` and no newline in `R`, the role extracted is `R` and the duration text is `D` stripped |
| `EditDistance.Distance` | visabot/visabot.py:113 | `nltk.edit_distance` with unit costs and no transpositions, by the recurrence over prefixes that fills its table |
| `EditDistance.LengthGapBound` | visabot/visabot.py:113 | the edit distance is at least the difference in length |
| `EditDistance.MismatchBound` | visabot/visabot.py:113 | for equal lengths, the edit distance is at most the number of mismatched positions |
| `EditDistance.OneSubstitution` | visabot/visabot.py:113 | replacing one character is at most one edit |
| `EditDistance.LongerLengthBound` | visabot/visabot.py:113 | the edit distance is at most the longer length |
| `EditDistance.ZeroIffEqual` | visabot/visabot.py:113 | the edit distance is zero exactly between equal strings |
| `EditDistance.Symmetric` | visabot/visabot.py:113 | the edit distance is symmetric |
| `VisaBot.HelpText` | visabot/visabot.py:80-94 | the help text starts with the prompt, or with the default prompt when none is given |
| `VisaBot.Visa.constructor` | visabot/visabot.py:15-20 | a visa records its recipient, sponsor, role and expiry |
| `VisaBot.Visa.IsExpired` | visabot/visabot.py:22-27 | a visa has expired exactly when `now` is strictly after its expiry |
| `VisaBot.ExpiredAmong` | visabot/visabot.py:221-229 | the visas the scan collects: those of the set that have expired at `now` |
| `VisaBot.Revocations` | visabot/visabot.py:221-228 | each revoked visa gives, in order, its role removed from the recipient and an expiry announcement |
| `VisaBot.ScanStep` | visabot/visabot.py:221-229 | scanning one more visa adds it to the expired set exactly when it has expired |
| `VisaBot.TickKeepsUnexpired` | visabot/visabot.py:22-27 | a tick keeps exactly the visas whose expiry is not before `now`, including one expiring at `now` itself |
| `VisaBot.SecondTickRevokesNothing` | visabot/visabot.py:217-231 | a second tick at the same `now` finds nothing to revoke |
| `VisaBot.ExpiryIsMonotone` | visabot/visabot.py:22-27 | a later tick revokes everything an earlier one would |
| `VisaBot.ValidateRole` | visabot/visabot.py:195-197 | `_validate_role` passes exactly when the role name is non-empty and held by the author |
| `VisaBot.SponsorDecision` | visabot/visabot.py:130-160 | an approval needs three fields, a quoted role that is open, a sponsor role held by the author, a parsed duration, an expiry `datetime` can hold and a mention, and goes to the last member mentioned; a refusal is a single reply or exception, and a reply is one of the four helps the handler sends |
| `VisaBot.TooFewWordsRaise` | visabot/visabot.py:130 | with fewer than three words, unpacking `split(maxsplit=2)` raises before anything else is checked |
| `VisaBot.NoMentionRefused` | visabot/visabot.py:139-141 | a quoted role with nobody mentioned gets the help asking for a mention |
| `VisaBot.ClosedVisaRefused` | visabot/visabot.py:144-147 | a role with no sponsor role, or an empty one, gets the "no open visa" help |
| `VisaBot.NonSponsorRaises` | visabot/visabot.py:143-149 | an author without the sponsor role gets the `ValueError` of `_validate_role`, which escapes because line 149 is outside the `try` |
| `VisaBot.WrongSponsorHelpUnreachable` | visabot/visabot.py:149-152 | the help "You don't have the correct sponsor role!" is never sent |
| `VisaBot.DurationFailure` | visabot/visabot.py:154-160 | of the errors of `parse_duration`, exactly the `ValueError` of an unknown unit is caught and becomes the "Time unit not supported" help; the `IndexError` and the `OverflowError` escape |
| `VisaBot.DurationRefused` | visabot/visabot.py:154-160 | once the author may sponsor the role, a duration that does not parse ends the command as `DurationFailure` says |
| `VisaBot.ExpiryOverflowRaises` | visabot/visabot.py:156 | a duration that parses but puts the expiry past what `datetime` can hold raises an escaping `OverflowError`, and no visa is granted |
| `VisaBot.NotASuggestion` | visabot/visabot.py:114 | every suggestion ends in '?', so a text that does not is not a suggestion |
| `VisaBot.RefusalSuggestsNothing` | visabot/visabot.py:116-160 | no refusal of `!sponsor` is a "did you mean" suggestion |
| `VisaBot.UnquotedRoleRefused` | visabot/visabot.py:130-135 | without two quotes on one line, `!sponsor` is refused for its quotes before mentions, roles or duration are looked at |
| `VisaBot.ApprovedWhenAllChecksPass` | visabot/visabot.py:140-158 | when every check passes and the expiry is a `datetime`, `!sponsor` approves the last member mentioned for the parsed duration |
| `VisaBot.SponsorCommandApproved` | visabot/visabot.py:116-160 | the command the usage text describes, `<cmd> <mention> "R" D`, grants `R` for `Parsed(strip(D))` seconds when `R` is open, the author holds its sponsor role and the expiry is a `datetime` |
| `VisaBot.RouteOf` | visabot/visabot.py:104-109 | a message without words crashes, one without the prefix is ignored, and otherwise the action is the first word without its first character, which runs when known |
| `VisaBot.Suggestions` | visabot/visabot.py:110-114 | a key is suggested exactly when it is within two edits of the action |
| `VisaBot.FarActionNoSuggestion` | visabot/visabot.py:110-114 | an action more than two characters longer than every key gets no suggestion |
| `VisaBot.OneSlipSuggested` | visabot/visabot.py:110-114 | a command typed with one wrong character gets that command suggested |
| `VisaBot.KnownActionIsItsOwnSuggestion` | visabot/visabot.py:108-114 | a known action lies within two edits of itself, so without the check at line 108 it would be suggested to itself |
| `VisaBot.Bot.constructor` | visabot/visabot.py:57-67 | a new bot has no open visa roles and no visas |
| `VisaBot.Bot.OnMessage` | visabot/visabot.py:74-78 | the bot's own messages, and messages without the prefix, change nothing and send nothing; only `!openvisa` changes the role map and only `!sponsor` changes the visas |
| `VisaBot.Bot.ParseCommand` | visabot/visabot.py:98-114 | a message without words raises, one without the prefix does nothing, an unknown action gets a help for every near key in key order, a known action gets no suggestion, `!closevisa` raises, and only `!openvisa` and `!sponsor` change state |
| `VisaBot.Bot.RunHandler` | visabot/visabot.py:108-109 | `!sponsor` refuses or grants one new visa as `SponsorDecision` says; `!openvisa` refuses a non-administrator, asks its two questions otherwise, and maps the visa role to the sponsor role exactly when both are roles of the guild; `!closevisa` raises; only `!openvisa` changes the role map, only `!sponsor` the visas, and no handler sends a suggestion |
| `VisaBot.Bot.SuggestFor` | visabot/visabot.py:110-114 | the loop sends one suggestion for each key within two edits, in key order |
| `VisaBot.Bot.Sponsor` | visabot/visabot.py:116-160 | at `now`, it refuses as `SponsorDecision` says and adds no visa, or it adds exactly one new visa, for the chosen member with expiry `now` plus the parsed duration, even when an equal-looking visa is held; the role map never changes |
| `VisaBot.Bot.Admit` | visabot/visabot.py:154-160 | once the author may sponsor the role, the `try` block refuses as `SponsorDecision` says and adds no visa, or adds exactly one new visa for the last member mentioned, expiring `now` plus the parsed duration |
| `VisaBot.Bot.OpenVisa` | visabot/visabot.py:162-187 | a non-administrator is refused; an unknown sponsor or visa role (checked in that order) gets a help; otherwise the visa role is mapped to the sponsor role, replacing only that entry; no reply is a suggestion |
| `VisaBot.Bot.CloseVisa` | visabot/visabot.py:189-193 | `!closevisa` always raises `NotImplementedError` and changes nothing |
| `VisaBot.Bot.ApproveVisa` | visabot/visabot.py:199-209 | approving adds exactly that visa, gives the role and announces the expiry |
| `VisaBot.Bot.Scan` | visabot/visabot.py:220-229 | the scan collects exactly the expired visas, revokes each once and changes nothing |
| `VisaBot.Bot.Discard` | visabot/visabot.py:230-231 | the second loop removes exactly the collected visas |
| `VisaBot.Bot.PollTick` | visabot/visabot.py:217-231 | a tick removes exactly the visas expired at `now`, revokes each of them once with its two effects, and keeps the role map |

## Left out

- Discord I/O is reduced to `Effect` values. This covers:
  - the gateway, channels and role objects;
  - failures of `add_roles`, `remove_roles` and `send`;
  - a visa role or announcement channel that `dc.utils.get` cannot find.
- Roles and members are reduced to names and numbers.
- Concurrency is not modelled.
  - Handlers run as `create_task` tasks in the source; the model runs each
    to completion when its message arrives.
  - Interleavings with the sweep are not modelled.
  - An exception in a handler is an escaping `Raise` effect, which ends that
    handler.
- `on_ready`, `asyncio.sleep` and the endless polling loop are left out. One
  tick is `PollTick`.
- `wait_for` is left out. The two answers of `!openvisa` are parameters.
- The `print` calls are left out. They are console logging.
- `Visa.expiry_to_str` is left out, because it uses `pytz` time zones. The
  grant announcement carries the expiry as a number.
- `dt.datetime.now()` is the parameter `now`, in seconds after
  `datetime.min`. Datetimes and timedeltas are exact real numbers of
  seconds, so microsecond rounding is not modelled. Their ranges are
  modelled; at a range's very edge, a value that rounds across the bound is
  not.
- `Duration.Number`: only decimal literals are numbers. These are a sign,
  digits and at most one point. Python's `float` also accepts exponents,
  underscores, surrounding whitespace, `inf` and `nan`, and decimal digits
  outside ASCII (such as '５'). Those are not modelled.
- `Text.Lower`: only ASCII letters are lower-cased. Python lower-cases all
  of Unicode.
- `Duration.DocstringThirdExample`: stated on the docstring's tokens, not on
  its raw text.
- `VisaBot.Bot.OnMessage`: states the ignored cases and which state each
  route may change. What each command replies is stated by the handler
  methods.
- `VisaBot.Bot.ParseCommand`: for `!sponsor` and `!openvisa` it states only
  which state may change and that no suggestion is sent. Their replies are
  stated by `Sponsor` and `OpenVisa`.
- `VisaBot.Bot.RunHandler`: for `!openvisa` it states the refusal, the two
  questions and the new role map, but not which help follows an unknown
  role. That help is stated by `OpenVisa`.
- `VisaBot.HelpText`: states only that the prompt leads the text. The `Help`
  effect carries the prompt rather than the full usage text.
- `VisaBot.Bot.Sponsor`: `message.mentions.pop()` also removes the mention
  from the message. Nothing reads it afterwards, so this is not modelled.
- `nltk.edit_distance` is left out as a library. Its distance is defined by
  the same recurrence over prefixes that fills its table, without the table.
- `__main__.py` and `keep_alive.py` are left out. They start the bot and a
  health-check web server.
