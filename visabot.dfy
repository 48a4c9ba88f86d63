/**
 * The visa lifecycle of `VisaBot`: commands are routed by their first word,
 * `!openvisa` lets an administrator pair a visa role with the sponsor role
 * that may grant it, `!sponsor` grants a visa role to a mentioned member for
 * a duration, and every poll tick revokes the visas whose expiry has passed.
 *
 * Discord itself is reduced to data: a message carries its author, the
 * names of the author's roles, whether the author is an administrator, the
 * names of the server's roles, its text and its mentions; what the bot does
 * to Discord is returned as a sequence of effects. The clock is the
 * parameter `now`, in seconds after `datetime.min` (0001-01-01 00:00).
 */
module VisaBot {
  import opened Wrappers
  import opened Text
  import opened Duration
  import opened Quotes
  import opened EditDistance

  type MemberId = nat

  datatype Message = Message(
    author: MemberId,
    authorRoles: set<string>,
    authorIsAdmin: bool,
    guildRoles: set<string>,
    content: string,
    mentions: seq<MemberId>)

  /** What the bot posts in its announcement channel. */
  datatype News = Granted(member: MemberId, expiry: real) | Expired(member: MemberId)

  /** An exception that escapes a command handler. */
  datatype Uncaught =
    | NoWords                 // IndexError: `command.split()[0]` of a message without words
    | TooFewFields(got: nat)  // ValueError: unpacking `split(maxsplit=2)` into three names
    | NotSponsor(text: string) // ValueError raised by `_validate_role`
    | NumberWithoutUnit       // IndexError: `tokens[i + 1]` after a trailing number
    | NotImplemented          // NotImplementedError from `closevisa`
    | Overflow                // OverflowError: a `timedelta` or `datetime` beyond its range

  datatype Effect =
    | Send(text: string)                        // a message in the command's channel
    | Help(prompt: string)                      // `_help`: the text `HelpText(prompt)` in that channel
    | AddRole(member: MemberId, role: string)
    | RemoveRole(member: MemberId, role: string)
    | Announce(news: News)
    | Raise(error: Uncaught)

  const DefaultPrompt := "I don't understand what you said :("
  const NeedQuotes := "The visa role needs to be surrounded by quotes!"
  const NoMention := "You forgot to mention who you want to sponsor!"
  const NoOpenVisa := "There is no open visa for that role!"
  const UnitNotSupported := "Time unit not supported"
  const WrongSponsorRole := "You don't have the correct sponsor role!"
  const AdminOnly := "Only a server admin can do that!"
  const AskSponsorRole := "What is the sponsor role?"
  const AskVisaRole := "What is the visa role?"

  function Suggestion(key: string): string {
    "Did you mean to use !" + key + "?"
  }

  function NoSuchRole(role: string): string {
    "The role " + role + " doesn't exist"
  }

  /** Every suggestion is a question, so no text that does not end in '?' is one. */
  lemma NotASuggestion(text: string)
    requires text != [] && text[|text| - 1] != '?'
    ensures forall key :: Suggestion(key) != text
  {
    forall key ensures Suggestion(key) != text {
      assert Suggestion(key)[|Suggestion(key)| - 1] == '?';
    }
  }

  /** The command words, in the order of `_cmd_handlers`. */
  const Actions: seq<string> := ["sponsor", "openvisa", "closevisa"]
  const MaxDistance := 2

  /** The text `_help(message, err)` sends: the prompt, then the usage of both commands. */
  function HelpText(err: string): (text: string)
    ensures (if err == [] then DefaultPrompt else err) <= text
  {
    var prompt := if err == [] then DefaultPrompt else err;
    var sponsorUsage :=
      "sponsor:\n!sponsor [User] \"[Visa Role]\" [Duration]" + "\nExamples:\n\t" +
      "!sponsor @friend 5 minutes" + "\n\t" +
      "!sponsor @friend 3 hrs 1 min 30 secs" + "\n\t" +
      "!sponsor @friend 1 week, 2 days, 1.5 hours, and 3 seconds";
    var openvisaUsage := "openvisa:\n!openvisa";
    prompt + "\n\nUsage:\n\n" + sponsorUsage + "\n\n" + openvisaUsage
  }

  /** A granted visa. The bot keeps visas by identity, so two equal-looking visas are two visas. */
  class Visa {
    const recipient: MemberId
    const sponsor: MemberId
    const role: string
    const expiry: real

    constructor(recipient: MemberId, sponsor: MemberId, role: string, expiry: real)
      ensures this.recipient == recipient && this.sponsor == sponsor
      ensures this.role == role && this.expiry == expiry
    {
      this.recipient := recipient;
      this.sponsor := sponsor;
      this.role := role;
      this.expiry := expiry;
    }

    /** `is_expired`: the expiry lies strictly before `now`. */
    predicate IsExpired(now: real) {
      now > expiry
    }
  }

  /**
   * Whether `datetime` can hold the instant `t`, in seconds after
   * `datetime.min`: from 0001-01-01 up to the end of 9999-12-31, 3652059
   * days later. Adding a `timedelta` that leaves this range raises
   * `OverflowError`.
   */
  predicate IsInstant(t: real) {
    0.0 <= t < 3652059.0 * 86400.0
  }

  /** The visas of `visas` that have expired at `now`. */
  function ExpiredAmong(visas: set<Visa>, now: real): set<Visa> {
    set v | v in visas && v.IsExpired(now)
  }

  /** The two effects of revoking each visa of `revoked`, in order. */
  function Revocations(revoked: seq<Visa>): (effects: seq<Effect>)
    ensures |effects| == 2 * |revoked|
    ensures forall k :: 0 <= k < |revoked| ==>
      effects[2 * k] == RemoveRole(revoked[k].recipient, revoked[k].role) &&
      effects[2 * k + 1] == Announce(Expired(revoked[k].recipient))
  {
    if revoked == [] then []
    else
      var v := revoked[|revoked| - 1];
      Revocations(revoked[..|revoked| - 1]) + [RemoveRole(v.recipient, v.role), Announce(Expired(v.recipient))]
  }

  /** Scanning one more visa adds it to the expired ones exactly when it has expired. */
  lemma ScanStep(visas: set<Visa>, pending: set<Visa>, v: Visa, now: real)
    requires v in pending && pending <= visas
    ensures v !in ExpiredAmong(visas - pending, now)
    ensures ExpiredAmong(visas - (pending - {v}), now) ==
      ExpiredAmong(visas - pending, now) + (if v.IsExpired(now) then {v} else {})
  {
    assert visas - (pending - {v}) == (visas - pending) + {v};
  }

  /** A tick keeps exactly the visas that have not expired; one expiring at `now` itself is kept. */
  lemma TickKeepsUnexpired(visas: set<Visa>, now: real)
    ensures forall v :: v in visas - ExpiredAmong(visas, now) <==> v in visas && now <= v.expiry
  {
  }

  /** A second tick at the same `now` finds nothing left to revoke. */
  lemma SecondTickRevokesNothing(visas: set<Visa>, now: real)
    ensures ExpiredAmong(visas - ExpiredAmong(visas, now), now) == {}
  {
  }

  /** A later tick revokes everything an earlier one would. */
  lemma ExpiryIsMonotone(visas: set<Visa>, earlier: real, later: real)
    requires earlier <= later
    ensures ExpiredAmong(visas, earlier) <= ExpiredAmong(visas, later)
  {
  }

  /** The effects of `_approve_visa`: the role is given, then the grant is announced. */
  function Approval(v: Visa): seq<Effect> {
    [AddRole(v.recipient, v.role), Announce(Granted(v.recipient, v.expiry))]
  }

  /** `_validate_role`: the author must hold the (non-empty) sponsor role. */
  function ValidateRole(authorRoles: set<string>, roleName: string): (error: Option<Uncaught>)
    ensures error.None? <==> roleName in authorRoles && roleName != []
  {
    if roleName in authorRoles && roleName != [] then None
    else Some(NotSponsor("Only the " + roleName + " role can do that!"))
  }

  /** How `!sponsor` ends: refused with these effects, or a visa for `recipient` lasting `seconds`. */
  datatype SponsorOutcome =
    | Refuse(effects: seq<Effect>)
    | Approve(recipient: MemberId, role: string, seconds: real)

  /**
   * What becomes of an error of `parse_duration` in `_action_sponsor`: the
   * `ValueError` of an unknown unit is caught and its text sent as help,
   * while the `IndexError` of a trailing number and the `OverflowError` of
   * a `timedelta` out of range are not `ValueError`s and escape.
   */
  function DurationFailure(error: DurationError): (effect: Effect)
    ensures effect.Help? <==> error == UnsupportedUnit
    ensures effect.Help? ==> effect.prompt == UnitNotSupported
  {
    match error
    case UnsupportedUnit => Help(UnitNotSupported)
    case MissingUnit => Raise(NumberWithoutUnit)
    case OutOfRange => Raise(Overflow)
  }

  /**
   * The decision `_action_sponsor` takes at `now`, in its order: the message
   * must have three fields, the third must hold a quoted role, someone must
   * be mentioned, the role must be open, the author must hold its sponsor
   * role, the duration must parse and the expiry must be a `datetime`. The
   * last mention receives the visa.
   */
  function SponsorDecision(msg: Message, roles: map<string, string>, now: real): (outcome: SponsorOutcome)
    ensures outcome.Approve? ==>
      |msg.mentions| > 0 && outcome.recipient == msg.mentions[|msg.mentions| - 1]
    ensures outcome.Approve? ==>
      outcome.role in roles && roles[outcome.role] != [] && roles[outcome.role] in msg.authorRoles
    ensures outcome.Approve? ==>
      ThirdField(msg.content).Some? &&
      ExtractFromQuotes(ThirdField(msg.content).value) == Some(outcome.role) &&
      Parsed(DurationText(ThirdField(msg.content).value, outcome.role)) == Success(outcome.seconds)
    ensures outcome.Approve? ==> IsInstant(now + outcome.seconds)
    ensures outcome.Refuse? ==> |outcome.effects| == 1
    ensures outcome.Refuse? && outcome.effects[0].Help? ==>
      var prompt := outcome.effects[0].prompt;
      prompt == NeedQuotes || prompt == NoMention || prompt == NoOpenVisa || prompt == UnitNotSupported
  {
    match ThirdField(msg.content)
    case None => Refuse([Raise(TooFewFields(|Split(msg.content)|))])
    case Some(rest) =>
      match ExtractFromQuotes(rest)
      case None => Refuse([Help(NeedQuotes)])
      case Some(role) =>
        if |msg.mentions| == 0 then Refuse([Help(NoMention)])
        else if role !in roles || roles[role] == [] then Refuse([Help(NoOpenVisa)])
        else match ValidateRole(msg.authorRoles, roles[role])
          case Some(error) => Refuse([Raise(error)])
          case None =>
            match Parsed(DurationText(rest, role))
            case Failure(error) => Refuse([DurationFailure(error)])
            case Success(seconds) =>
              if IsInstant(now + seconds) then Approve(msg.mentions[|msg.mentions| - 1], role, seconds)
              else Refuse([Raise(Overflow)])
  }

  /** No refusal of `!sponsor` is a "did you mean" suggestion. */
  lemma RefusalSuggestsNothing(msg: Message, roles: map<string, string>, now: real)
    ensures SponsorDecision(msg, roles, now).Refuse? ==>
      forall key :: Help(Suggestion(key)) !in SponsorDecision(msg, roles, now).effects
  {
    var outcome := SponsorDecision(msg, roles, now);
    if outcome.Refuse? {
      NotASuggestion(NeedQuotes);
      NotASuggestion(NoMention);
      NotASuggestion(NoOpenVisa);
      NotASuggestion(UnitNotSupported);
      forall key ensures Help(Suggestion(key)) !in outcome.effects {
        assert outcome.effects == [outcome.effects[0]];
      }
    }
  }

  /** Fewer than three words: unpacking `split(maxsplit=2)` raises before anything else is looked at. */
  lemma TooFewWordsRaise(msg: Message, roles: map<string, string>, now: real)
    requires |Split(msg.content)| < 3
    ensures SponsorDecision(msg, roles, now) == Refuse([Raise(TooFewFields(|Split(msg.content)|))])
  {
  }

  /** A third field without two quotes on one line is refused for its quotes, before anything else is looked at. */
  lemma UnquotedRoleRefused(msg: Message, roles: map<string, string>, now: real)
    requires ThirdField(msg.content).Some?
    requires forall a, b :: !QuotedAt(ThirdField(msg.content).value, a, b)
    ensures SponsorDecision(msg, roles, now) == Refuse([Help(NeedQuotes)])
  {
  }

  /** The quoted role of a message with three fields. */
  predicate QuotesRole(msg: Message, role: string) {
    ThirdField(msg.content).Some? && ExtractFromQuotes(ThirdField(msg.content).value) == Some(role)
  }

  /** A quoted role but nobody mentioned: the author is reminded to mention someone. */
  lemma NoMentionRefused(msg: Message, roles: map<string, string>, now: real, role: string)
    requires QuotesRole(msg, role) && |msg.mentions| == 0
    ensures SponsorDecision(msg, roles, now) == Refuse([Help(NoMention)])
  {
  }

  /** A mention, but a role with no sponsor role mapped to it, or an empty one: there is no open visa. */
  lemma ClosedVisaRefused(msg: Message, roles: map<string, string>, now: real, role: string)
    requires QuotesRole(msg, role) && |msg.mentions| > 0
    requires role !in roles || roles[role] == []
    ensures SponsorDecision(msg, roles, now) == Refuse([Help(NoOpenVisa)])
  {
  }

  /**
   * An open visa whose sponsor role the author lacks: `_validate_role`
   * raises its `ValueError` outside the `try`, so it escapes the handler.
   */
  lemma NonSponsorRaises(msg: Message, roles: map<string, string>, now: real, role: string)
    requires QuotesRole(msg, role) && |msg.mentions| > 0
    requires role in roles && roles[role] != [] && roles[role] !in msg.authorRoles
    ensures SponsorDecision(msg, roles, now) ==
      Refuse([Raise(NotSponsor("Only the " + roles[role] + " role can do that!"))])
  {
  }

  /**
   * The help "You don't have the correct sponsor role!" is never sent: the
   * check before it has already raised for every author it would catch.
   */
  lemma WrongSponsorHelpUnreachable(msg: Message, roles: map<string, string>, now: real)
    ensures SponsorDecision(msg, roles, now) != Refuse([Help(WrongSponsorRole)])
  {
    assert |WrongSponsorRole| == 40;
    assert |NeedQuotes| == 47 && |NoMention| == 46 && |NoOpenVisa| == 36 && |UnitNotSupported| == 23;
  }

  /**
   * Once the author may sponsor the role, a duration that does not parse
   * ends the command as `DurationFailure` says: a help for an unknown unit,
   * an escaping exception otherwise.
   */
  lemma DurationRefused(msg: Message, roles: map<string, string>, now: real, role: string, error: DurationError)
    requires QuotesRole(msg, role) && |msg.mentions| > 0
    requires role in roles && roles[role] != [] && roles[role] in msg.authorRoles
    requires Parsed(DurationText(ThirdField(msg.content).value, role)) == Failure(error)
    ensures SponsorDecision(msg, roles, now) == Refuse([DurationFailure(error)])
  {
    assert ValidateRole(msg.authorRoles, roles[role]).None?;
  }

  /**
   * A duration that parses but puts the expiry past what `datetime` can
   * hold makes `now + parse_duration(duration)` raise `OverflowError`, which
   * escapes: no visa is granted.
   */
  lemma ExpiryOverflowRaises(msg: Message, roles: map<string, string>, now: real, role: string)
    requires QuotesRole(msg, role) && |msg.mentions| > 0
    requires role in roles && roles[role] != [] && roles[role] in msg.authorRoles
    requires Parsed(DurationText(ThirdField(msg.content).value, role)).Success?
    requires !IsInstant(now + Parsed(DurationText(ThirdField(msg.content).value, role)).value)
    ensures SponsorDecision(msg, roles, now) == Refuse([Raise(Overflow)])
  {
    assert ValidateRole(msg.authorRoles, roles[role]).None?;
  }

  /**
   * The command the usage text describes, `<command> <mention> "R" D`, with
   * an open role `R` whose sponsor role the author holds and a duration `D`
   * that parses to an expiry `datetime` can hold, grants `R` to the last
   * member mentioned for exactly that duration.
   */
  lemma SponsorCommandApproved(msg: Message, roles: map<string, string>, now: real,
                               command: string, mention: string, role: string, duration: string)
    requires command != [] && NoSpace(command) && mention != [] && NoSpace(mention)
    requires '"' !in role && '\n' !in role && '"' !in duration
    requires msg.content == command + " " + mention + " " + "\"" + role + "\"" + duration
    requires |msg.mentions| > 0
    requires role in roles && roles[role] != [] && roles[role] in msg.authorRoles
    requires Parsed(Strip(duration)).Success? && IsInstant(now + Parsed(Strip(duration)).value)
    ensures SponsorDecision(msg, roles, now) ==
      Approve(msg.mentions[|msg.mentions| - 1], role, Parsed(Strip(duration)).value)
  {
    SponsorCommandFields(msg.content, command, mention, role, duration);
    ApprovedWhenAllChecksPass(msg, roles, now, "\"" + role + "\"" + duration, role);
  }

  /** The fields of such a command: the third is the quoted role with the duration, and both come back out of it. */
  lemma SponsorCommandFields(content: string, command: string, mention: string, role: string, duration: string)
    requires command != [] && NoSpace(command) && mention != [] && NoSpace(mention)
    requires '"' !in role && '\n' !in role && '"' !in duration
    requires content == command + " " + mention + " " + "\"" + role + "\"" + duration
    ensures ThirdField(content) == Some("\"" + role + "\"" + duration)
    ensures ExtractFromQuotes("\"" + role + "\"" + duration) == Some(role)
    ensures DurationText("\"" + role + "\"" + duration, role) == Strip(duration)
  {
    var quoted := "\"" + role + "\"" + duration;
    ThirdFieldOfCommand(content, command, mention, quoted);
    QuotedRoleRoundTrip(role, duration);
  }

  /**
   * The converse of what `SponsorDecision` promises of an approval: a
   * message whose checks all pass is approved, for the last member
   * mentioned, with the parsed duration.
   */
  lemma ApprovedWhenAllChecksPass(msg: Message, roles: map<string, string>, now: real, rest: string, role: string)
    requires ThirdField(msg.content) == Some(rest) && ExtractFromQuotes(rest) == Some(role)
    requires |msg.mentions| > 0
    requires role in roles && roles[role] != [] && roles[role] in msg.authorRoles
    requires Parsed(DurationText(rest, role)).Success? && IsInstant(now + Parsed(DurationText(rest, role)).value)
    ensures SponsorDecision(msg, roles, now) ==
      Approve(msg.mentions[|msg.mentions| - 1], role, Parsed(DurationText(rest, role)).value)
  {
  }

  lemma ThirdFieldOfCommand(content: string, command: string, mention: string, quoted: string)
    requires command != [] && NoSpace(command) && mention != [] && NoSpace(mention)
    requires quoted != [] && !IsSpace(quoted[0])
    requires content == command + " " + mention + " " + quoted
    ensures ThirdField(content) == Some(quoted)
  {
    var tail := mention + " " + quoted;
    assert content == command + " " + tail;
    AfterWordJoin(command, tail);
    AfterWordJoin(mention, quoted);
  }

  /** How `_parse_command` treats a message. */
  datatype Route =
    | Crash                   // no words: `split()[0]` raises before anything else
    | NotCommand              // the message does not start with the prefix
    | Run(action: string)     // a known action runs its handler
    | Unknown(action: string) // otherwise near-misses are suggested

  /** `w[1:]`. */
  function DropFirst(w: string): string {
    if w == [] then [] else w[1..]
  }

  /** The route of `content`: its action is its first word without its first character. */
  function RouteOf(content: string, prefix: string): (route: Route)
    ensures route == Crash <==> Split(content) == []
    ensures route == NotCommand <==> Split(content) != [] && !(prefix <= content)
    ensures route.Run? ==> route.action in Actions
    ensures route.Unknown? ==> route.action !in Actions
    ensures route.Run? || route.Unknown? ==> prefix <= content && route.action == DropFirst(Split(content)[0])
  {
    var words := Split(content);
    if words == [] then Crash
    else if !(prefix <= content) then NotCommand
    else if DropFirst(words[0]) in Actions then Run(DropFirst(words[0]))
    else Unknown(DropFirst(words[0]))
  }

  /** The keys within `MaxDistance` edits of `action`, in key order. */
  function Suggestions(action: string, keys: seq<string>): (near: seq<string>)
    ensures forall k :: k in near <==> k in keys && Distance(action, k) <= MaxDistance
    ensures |near| <= |keys|
  {
    if keys == [] then []
    else
      var rest := keys[..|keys| - 1];
      var key := keys[|keys| - 1];
      assert keys == rest + [key];
      Suggestions(action, rest) + (if Distance(action, key) <= MaxDistance then [key] else [])
  }

  function SuggestionHelp(keys: seq<string>): (effects: seq<Effect>)
    ensures |effects| == |keys|
    ensures forall k :: 0 <= k < |keys| ==> effects[k] == Help(Suggestion(keys[k]))
  {
    seq(|keys|, k requires 0 <= k < |keys| => Help(Suggestion(keys[k])))
  }

  /** An action more than two characters longer than every key is offered no suggestion. */
  lemma FarActionNoSuggestion(action: string)
    requires |action| > |"closevisa"| + MaxDistance
    ensures Suggestions(action, Actions) == []
  {
    LengthGapBound(action, "sponsor");
    LengthGapBound(action, "openvisa");
    LengthGapBound(action, "closevisa");
    NothingNearNothingSuggested(action, Actions);
  }

  lemma {:induction false} NothingNearNothingSuggested(action: string, keys: seq<string>)
    requires forall k :: k in keys ==> Distance(action, k) > MaxDistance
    ensures Suggestions(action, keys) == []
  {
    if keys != [] {
      var rest := keys[..|keys| - 1];
      assert forall k :: k in rest ==> k in keys;
      NothingNearNothingSuggested(action, rest);
      assert keys[|keys| - 1] in keys;
    }
  }

  /** A command typed with one wrong character gets that command suggested. */
  lemma OneSlipSuggested(before: string, typed: char, intended: char, after: string)
    requires before + [intended] + after in Actions
    ensures before + [intended] + after in Suggestions(before + [typed] + after, Actions)
  {
    OneSubstitution(before, typed, intended, after);
  }

  /** The keys up to `i + 1` are suggested as those up to `i`, then `keys[i]` if it is near. */
  lemma SuggestionsSnoc(action: string, keys: seq<string>, i: nat)
    requires i < |keys|
    ensures Suggestions(action, keys[..i + 1]) ==
      Suggestions(action, keys[..i]) + (if Distance(action, keys[i]) <= MaxDistance then [keys[i]] else [])
  {
    assert keys[..i + 1][..i] == keys[..i];
  }

  lemma SuggestionHelpAppend(a: seq<string>, b: seq<string>)
    ensures SuggestionHelp(a + b) == SuggestionHelp(a) + SuggestionHelp(b)
  {
  }

  /** A known action is within no distance of itself, so it would be its own suggestion; it is dispatched instead. */
  lemma KnownActionIsItsOwnSuggestion(action: string)
    requires action in Actions
    ensures action in Suggestions(action, Actions)
  {
    ZeroIffEqual(action, action);
  }

  class Bot {
    const user: MemberId
    const commandPrefix: string
    const announcementChannel: string
    /** `_visa_sponsor_roles`: each open visa role and the sponsor role that may grant it. */
    var sponsorRoles: map<string, string>
    /** `_visas`: the visas granted and not yet revoked. */
    var visas: set<Visa>

    constructor(user: MemberId, commandPrefix: string, announcementChannel: string)
      ensures this.user == user && this.commandPrefix == commandPrefix
      ensures this.announcementChannel == announcementChannel
      ensures sponsorRoles == map[] && visas == {}
    {
      this.user := user;
      this.commandPrefix := commandPrefix;
      this.announcementChannel := announcementChannel;
      sponsorRoles := map[];
      visas := {};
    }

    /**
     * `on_message`: the bot ignores its own messages and parses every other
     * one. `sponsorReply` and `visaReply` are the two answers `!openvisa`
     * waits for.
     */
    method OnMessage(msg: Message, now: real, sponsorReply: string, visaReply: string)
      returns (effects: seq<Effect>)
      modifies this
      ensures msg.author == user ==> effects == [] && unchanged(this)
      ensures msg.author != user && RouteOf(msg.content, commandPrefix) == NotCommand ==>
        effects == [] && unchanged(this)
      ensures sponsorRoles == old(sponsorRoles) || RouteOf(msg.content, commandPrefix) == Run("openvisa")
      ensures visas == old(visas) || RouteOf(msg.content, commandPrefix) == Run("sponsor")
    {
      if msg.author == user {
        return [];
      }
      effects := ParseCommand(msg, now, sponsorReply, visaReply);
    }

    /**
     * `_parse_command`: a message without words raises, one without the
     * prefix is ignored, a known action runs its handler, and an unknown one
     * gets a suggestion for every key within two edits of it.
     */
    method ParseCommand(msg: Message, now: real, sponsorReply: string, visaReply: string)
      returns (effects: seq<Effect>)
      modifies this
      ensures RouteOf(msg.content, commandPrefix) == Crash ==> effects == [Raise(NoWords)] && unchanged(this)
      ensures RouteOf(msg.content, commandPrefix) == NotCommand ==> effects == [] && unchanged(this)
      ensures RouteOf(msg.content, commandPrefix).Unknown? ==>
        effects == SuggestionHelp(Suggestions(RouteOf(msg.content, commandPrefix).action, Actions)) &&
        unchanged(this)
      ensures RouteOf(msg.content, commandPrefix) == Run("closevisa") ==>
        effects == [Raise(NotImplemented)] && unchanged(this)
      ensures RouteOf(msg.content, commandPrefix).Run? ==> forall key :: Help(Suggestion(key)) !in effects
      ensures sponsorRoles == old(sponsorRoles) || RouteOf(msg.content, commandPrefix) == Run("openvisa")
      ensures visas == old(visas) || RouteOf(msg.content, commandPrefix) == Run("sponsor")
    {
      var words := Split(msg.content);
      if words == [] {
        return [Raise(NoWords)];
      }
      var action := DropFirst(words[0]);
      if !(commandPrefix <= msg.content) {
        return [];
      }
      if action in Actions {
        effects := RunHandler(action, msg, now, sponsorReply, visaReply);
      } else {
        effects := SuggestFor(action);
      }
    }

    /** The lookup in `_cmd_handlers`: each known action runs its own handler. */
    method RunHandler(action: string, msg: Message, now: real, sponsorReply: string, visaReply: string)
      returns (effects: seq<Effect>)
      requires action in Actions
      modifies this
      ensures action == "closevisa" ==> effects == [Raise(NotImplemented)] && unchanged(this)
      ensures action == "sponsor" && SponsorDecision(msg, old(sponsorRoles), now).Refuse? ==>
        effects == SponsorDecision(msg, old(sponsorRoles), now).effects && visas == old(visas)
      ensures action == "sponsor" && SponsorDecision(msg, old(sponsorRoles), now).Approve? ==>
        exists v: Visa :: v !in old(visas) && visas == old(visas) + {v} && effects == Approval(v) &&
          v.recipient == SponsorDecision(msg, old(sponsorRoles), now).recipient &&
          v.role == SponsorDecision(msg, old(sponsorRoles), now).role &&
          v.expiry == now + SponsorDecision(msg, old(sponsorRoles), now).seconds
      ensures action == "openvisa" && !msg.authorIsAdmin ==> effects == [Send(AdminOnly)]
      ensures action == "openvisa" && msg.authorIsAdmin ==>
        |effects| >= 2 && effects[..2] == [Send(AskSponsorRole), Send(AskVisaRole)]
      ensures action == "openvisa" ==>
        sponsorRoles == (if msg.authorIsAdmin && sponsorReply in msg.guildRoles && visaReply in msg.guildRoles
                         then old(sponsorRoles)[visaReply := sponsorReply] else old(sponsorRoles))
      ensures forall key :: Help(Suggestion(key)) !in effects
      ensures sponsorRoles == old(sponsorRoles) || action == "openvisa"
      ensures visas == old(visas) || action == "sponsor"
    {
      if action == "sponsor" {
        var granted;
        ghost var roles := sponsorRoles;
        effects, granted := Sponsor(msg, now);
        RefusalSuggestsNothing(msg, roles, now);
        if granted != null {
          assert granted.expiry == now + SponsorDecision(msg, roles, now).seconds;
        }
      } else if action == "openvisa" {
        effects := OpenVisa(msg, sponsorReply, visaReply);
      } else {
        effects := CloseVisa(msg);
      }
    }

    /** The help `_parse_command` sends for an unknown action: one suggestion per near key, in key order. */
    method SuggestFor(action: string) returns (effects: seq<Effect>)
      ensures effects == SuggestionHelp(Suggestions(action, Actions))
    {
      effects := [];
      var i := 0;
      while i < |Actions|
        invariant 0 <= i <= |Actions|
        invariant effects == SuggestionHelp(Suggestions(action, Actions[..i]))
      {
        var key := Actions[i];
        SuggestionsSnoc(action, Actions, i);
        if Distance(action, key) <= MaxDistance {
          SuggestionHelpAppend(Suggestions(action, Actions[..i]), [key]);
          effects := effects + [Help(Suggestion(key))];
        }
        i := i + 1;
      }
      assert Actions[..i] == Actions;
    }

    /**
     * `_action_sponsor`: refuses as `SponsorDecision` says, adding no visa,
     * or creates a new visa expiring `now` plus the parsed duration and
     * approves it, adding exactly that visa even when an equal-looking one
     * is already held.
     */
    method Sponsor(msg: Message, now: real) returns (effects: seq<Effect>, granted: Visa?)
      modifies this
      ensures sponsorRoles == old(sponsorRoles)
      ensures SponsorDecision(msg, old(sponsorRoles), now).Refuse? ==>
        granted == null && effects == SponsorDecision(msg, old(sponsorRoles), now).effects && visas == old(visas)
      ensures SponsorDecision(msg, old(sponsorRoles), now).Approve? ==>
        granted != null && fresh(granted) && granted !in old(visas) && visas == old(visas) + {granted} &&
        granted.recipient == SponsorDecision(msg, old(sponsorRoles), now).recipient &&
        granted.sponsor == msg.author &&
        granted.role == SponsorDecision(msg, old(sponsorRoles), now).role &&
        granted.expiry == now + SponsorDecision(msg, old(sponsorRoles), now).seconds &&
        effects == Approval(granted)
    {
      var fields := ThirdField(msg.content);
      if fields.None? {
        TooFewWordsRaise(msg, sponsorRoles, now);
        return [Raise(TooFewFields(|Split(msg.content)|))], null;
      }
      var rest := fields.value;
      var role := ExtractFromQuotes(rest);
      if role.None? {
        UnquotedRoleRefused(msg, sponsorRoles, now);
        return [Help(NeedQuotes)], null;
      }
      if |msg.mentions| == 0 {
        NoMentionRefused(msg, sponsorRoles, now, role.value);
        return [Help(NoMention)], null;
      }
      if role.value !in sponsorRoles || sponsorRoles[role.value] == [] {
        ClosedVisaRefused(msg, sponsorRoles, now, role.value);
        return [Help(NoOpenVisa)], null;
      }
      var invalid := ValidateRole(msg.authorRoles, sponsorRoles[role.value]);
      if invalid.Some? {
        NonSponsorRaises(msg, sponsorRoles, now, role.value);
        return [Raise(invalid.value)], null;
      }
      effects, granted := Admit(msg, now, rest, role.value);
    }

    /**
     * The `try` block that ends `_action_sponsor`, reached once the author
     * may sponsor the role: the duration is parsed, the expiry computed, and
     * the visa created and approved; the `ValueError` of an unknown unit
     * becomes a help, and every other exception escapes.
     */
    method Admit(msg: Message, now: real, rest: string, role: string) returns (effects: seq<Effect>, granted: Visa?)
      requires ThirdField(msg.content) == Some(rest) && ExtractFromQuotes(rest) == Some(role)
      requires |msg.mentions| > 0
      requires role in sponsorRoles && sponsorRoles[role] != [] && sponsorRoles[role] in msg.authorRoles
      modifies this
      ensures sponsorRoles == old(sponsorRoles)
      ensures SponsorDecision(msg, old(sponsorRoles), now).Refuse? ==>
        granted == null && effects == SponsorDecision(msg, old(sponsorRoles), now).effects && visas == old(visas)
      ensures SponsorDecision(msg, old(sponsorRoles), now).Approve? ==>
        granted != null && fresh(granted) && granted !in old(visas) && visas == old(visas) + {granted} &&
        granted.recipient == SponsorDecision(msg, old(sponsorRoles), now).recipient &&
        granted.sponsor == msg.author &&
        granted.role == SponsorDecision(msg, old(sponsorRoles), now).role &&
        granted.expiry == now + SponsorDecision(msg, old(sponsorRoles), now).seconds &&
        effects == Approval(granted)
    {
      var seconds := ParseDuration(DurationText(rest, role));
      match seconds
      case Failure(UnsupportedUnit) =>
        DurationRefused(msg, sponsorRoles, now, role, UnsupportedUnit);
        return [Help(UnitNotSupported)], null;
      case Failure(MissingUnit) =>
        DurationRefused(msg, sponsorRoles, now, role, MissingUnit);
        return [Raise(NumberWithoutUnit)], null;
      case Failure(OutOfRange) =>
        DurationRefused(msg, sponsorRoles, now, role, OutOfRange);
        return [Raise(Overflow)], null;
      case Success(s) =>
        if !IsInstant(now + s) {
          ExpiryOverflowRaises(msg, sponsorRoles, now, role);
          return [Raise(Overflow)], null;
        }
        ApprovedWhenAllChecksPass(msg, sponsorRoles, now, rest, role);
        granted := new Visa(msg.mentions[|msg.mentions| - 1], msg.author, role, now + s);
        effects := ApproveVisa(granted);
    }

    /**
     * `_action_openvisa`: only an administrator may open a visa; both
     * answers must name roles of the server, checked sponsor role first, and
     * then the visa role is mapped to the sponsor role, replacing any earlier
     * pairing of that visa role and leaving every other one alone.
     */
    method OpenVisa(msg: Message, sponsorReply: string, visaReply: string) returns (effects: seq<Effect>)
      modifies this
      ensures visas == old(visas)
      ensures !msg.authorIsAdmin ==> effects == [Send(AdminOnly)] && sponsorRoles == old(sponsorRoles)
      ensures msg.authorIsAdmin && sponsorReply !in msg.guildRoles ==>
        effects == [Send(AskSponsorRole), Send(AskVisaRole), Help(NoSuchRole(sponsorReply))] &&
        sponsorRoles == old(sponsorRoles)
      ensures msg.authorIsAdmin && sponsorReply in msg.guildRoles && visaReply !in msg.guildRoles ==>
        effects == [Send(AskSponsorRole), Send(AskVisaRole), Help(NoSuchRole(visaReply))] &&
        sponsorRoles == old(sponsorRoles)
      ensures msg.authorIsAdmin && sponsorReply in msg.guildRoles && visaReply in msg.guildRoles ==>
        effects == [Send(AskSponsorRole), Send(AskVisaRole)] &&
        sponsorRoles == old(sponsorRoles)[visaReply := sponsorReply]
      ensures forall key :: Help(Suggestion(key)) !in effects
    {
      if !msg.authorIsAdmin {
        return [Send(AdminOnly)];
      }
      effects := [Send(AskSponsorRole), Send(AskVisaRole)];
      var answers := [sponsorReply, visaReply];
      var i := 0;
      while i < |answers|
        invariant 0 <= i <= |answers|
        invariant forall k :: 0 <= k < i ==> answers[k] in msg.guildRoles
        invariant effects == [Send(AskSponsorRole), Send(AskVisaRole)]
        invariant sponsorRoles == old(sponsorRoles) && visas == old(visas)
      {
        if answers[i] !in msg.guildRoles {
          assert NoSuchRole(answers[i])[|NoSuchRole(answers[i])| - 1] == 't';
          NotASuggestion(NoSuchRole(answers[i]));
          effects := effects + [Help(NoSuchRole(answers[i]))];
          assert i == 0 ==> answers[i] == sponsorReply;
          assert i == 1 ==> answers[0] in msg.guildRoles && answers[i] == visaReply;
          return;
        }
        i := i + 1;
      }
      assert answers[0] in msg.guildRoles && answers[1] in msg.guildRoles;
      sponsorRoles := sponsorRoles[visaReply := sponsorReply];
    }

    /** `_action_closevisa` is not implemented: it raises and changes nothing. */
    method CloseVisa(msg: Message) returns (effects: seq<Effect>)
      ensures effects == [Raise(NotImplemented)]
    {
      effects := [Raise(NotImplemented)];
    }

    /** `_approve_visa`: the recipient gets the role, the visa is kept, and the grant is announced. */
    method ApproveVisa(v: Visa) returns (effects: seq<Effect>)
      modifies this
      ensures visas == old(visas) + {v} && sponsorRoles == old(sponsorRoles)
      ensures effects == Approval(v)
    {
      visas := visas + {v};
      effects := Approval(v);
    }

    /**
     * The scan of a tick: every visa expired at `now` is collected and
     * revoked once, in the order the scan meets it.
     */
    method Scan(now: real) returns (expired: set<Visa>, revoked: seq<Visa>, effects: seq<Effect>)
      ensures expired == ExpiredAmong(visas, now)
      ensures multiset(revoked) == multiset(expired)
      ensures effects == Revocations(revoked)
    {
      expired := {};
      var pending := visas;
      revoked, effects := [], [];
      while pending != {}
        invariant pending <= visas
        invariant expired == ExpiredAmong(visas - pending, now)
        invariant multiset(revoked) == multiset(expired)
        invariant effects == Revocations(revoked)
        decreases |pending|
      {
        var v :| v in pending;
        ScanStep(visas, pending, v, now);
        pending := pending - {v};
        if !v.IsExpired(now) {
          continue;
        }
        revoked := revoked + [v];
        effects := effects + [RemoveRole(v.recipient, v.role), Announce(Expired(v.recipient))];
        expired := expired + {v};
      }
      assert visas - pending == visas;
    }

    /**
     * One tick of `_poll_visas`: the scan revokes every expired visa (its
     * role removed and the expiry announced) and collects it, and the
     * collected visas are removed afterwards. Exactly the visas expired at
     * `now` are revoked, each once, and removed; all others are kept.
     */
    method PollTick(now: real) returns (revoked: seq<Visa>, effects: seq<Effect>)
      modifies this
      ensures visas == old(visas) - ExpiredAmong(old(visas), now)
      ensures multiset(revoked) == multiset(ExpiredAmong(old(visas), now))
      ensures effects == Revocations(revoked)
      ensures sponsorRoles == old(sponsorRoles)
    {
      var expired;
      expired, revoked, effects := Scan(now);
      Discard(expired);
    }

    /** The second loop of a tick: every collected visa leaves `_visas`. */
    method Discard(gone: set<Visa>)
      modifies this
      ensures visas == old(visas) - gone && sponsorRoles == old(sponsorRoles)
    {
      var removing := gone;
      while removing != {}
        invariant removing <= gone
        invariant visas == old(visas) - (gone - removing)
        invariant sponsorRoles == old(sponsorRoles)
        decreases |removing|
      {
        var v :| v in removing;
        visas := visas - {v};
        removing := removing - {v};
      }
    }
  }
}
