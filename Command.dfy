/**
 * The message handler's front end: the bot/prefix filter, tokenisation of the
 * text after the prefix, the allow-list gate and the choice between the two
 * commands (bilal.js, lines 51-66).
 */
module Command {
  import opened Text

  /** The values read from config.json that the handler consults. */
  datatype Config = Config(
    prefix: string,
    fullcheckCommand: string,
    topmaCommand: string,
    allowedUserIds: seq<string>)

  /** The parts of an incoming chat message the handler reads. */
  datatype Message = Message(authorId: string, authorIsBot: bool, content: string)

  /** What the handler decides to do with a message. */
  datatype Route =
    | Ignored                     // from a bot, or without the prefix: no reply at all
    | PermissionDenied            // sender not on the allow-list
    | FullcheckUsage              // fullcheck without a user id
    | Fullcheck(userId: string)   // fullcheck for the given id
    | Topma                       // voice leaderboard
    | Unrecognised                // allowed sender, unknown command: no reply

  /**
   * The argument vector: the text after the prefix, trimmed and split on
   * white space. Putting the white-space runs that the split removed back
   * between the arguments rebuilds the trimmed text.
   */
  function Args(cfg: Config, content: string): (args: seq<string>)
    requires cfg.prefix <= content
    ensures |args| >= 1
    ensures forall k :: 0 <= k < |args| ==> NoSpace(args[k])
    ensures |args| >= 2 ==> forall k :: 0 <= k < |args| ==> args[k] != []
    ensures var t := Trim(content[|cfg.prefix|..]);
      |SplitSeps(t)| == |args| - 1 && WhiteRuns(SplitSeps(t)) && t == JoinRuns(args, SplitSeps(t))
  {
    var t := Trim(content[|cfg.prefix|..]);
    SplitRebuilds(t);
    if t == [] then Split(t)
    else SplitTrimmedTokens(t); Split(t)
  }

  /** The command word: the first argument, lower-cased character by character. */
  function CommandWord(cfg: Config, content: string): (cmd: string)
    requires cfg.prefix <= content
    ensures var w := Args(cfg, content)[0];
      |cmd| == |w| && forall i :: 0 <= i < |w| ==> cmd[i] == LowerChar(w[i])
    ensures NoSpace(cmd)
    ensures forall i :: 0 <= i < |cmd| ==> !('A' <= cmd[i] <= 'Z')
  {
    Lower(Args(cfg, content)[0])
  }

  /** `!args[1]`: there is no second argument, or it is the empty string. */
  predicate MissingSecondArg(args: seq<string>)
  {
    |args| < 2 || args[1] == []
  }

  /** The routing decision of bilal.js:51-66, in the order the code tests its conditions. */
  function RouteOf(cfg: Config, msg: Message): (r: Route)
    ensures r == Ignored <==> (msg.authorIsBot || !(cfg.prefix <= msg.content))
    ensures r == PermissionDenied <==>
      (!msg.authorIsBot && cfg.prefix <= msg.content && msg.authorId !in cfg.allowedUserIds)
    ensures r.Fullcheck? || r == FullcheckUsage || r == Topma ==> msg.authorId in cfg.allowedUserIds
    ensures r.Fullcheck? ==> r.userId != [] && NoSpace(r.userId)
  {
    if msg.authorIsBot || !(cfg.prefix <= msg.content) then Ignored
    else
      var args := Args(cfg, msg.content);
      var cmd := CommandWord(cfg, msg.content);
      if msg.authorId !in cfg.allowedUserIds then PermissionDenied
      else if cmd == cfg.fullcheckCommand then
        if MissingSecondArg(args) then FullcheckUsage else Fullcheck(args[1])
      else if cmd == cfg.topmaCommand then Topma
      else Unrecognised
  }

  /**
   * A message written as the prefix, white space, words separated by runs of
   * white space (spaces, tabs, line breaks) and white space again is routed by
   * its first word (compared lower-cased), and a fullcheck takes its second
   * word as the user id.
   */
  lemma {:induction false} RouteOfWords(cfg: Config, msg: Message, lead: string, words: seq<string>,
                                        seps: seq<string>, tail: string)
    requires !msg.authorIsBot && msg.authorId in cfg.allowedUserIds
    requires AllSpace(lead) && AllSpace(tail) && |words| >= 1 && |seps| == |words| - 1
    requires forall k :: 0 <= k < |words| ==> words[k] != [] && NoSpace(words[k])
    requires WhiteRuns(seps)
    requires msg.content == cfg.prefix + lead + JoinRuns(words, seps) + tail
    ensures Lower(words[0]) == cfg.fullcheckCommand ==>
      RouteOf(cfg, msg) == (if |words| >= 2 then Fullcheck(words[1]) else FullcheckUsage)
    ensures Lower(words[0]) != cfg.fullcheckCommand && Lower(words[0]) == cfg.topmaCommand ==>
      RouteOf(cfg, msg) == Topma
    ensures Lower(words[0]) != cfg.fullcheckCommand && Lower(words[0]) != cfg.topmaCommand ==>
      RouteOf(cfg, msg) == Unrecognised
  {
    var body := JoinRuns(words, seps);
    assert cfg.prefix <= msg.content;
    assert msg.content[|cfg.prefix|..] == lead + body + tail;
    TrimRuns(lead, words, seps, tail);
    SplitJoinRuns(words, seps);
  }

  /** Trimming white space off both ends of words joined by white-space runs leaves the join. */
  lemma TrimRuns(lead: string, words: seq<string>, seps: seq<string>, tail: string)
    requires AllSpace(lead) && AllSpace(tail) && |words| >= 1 && |seps| == |words| - 1
    requires forall k :: 0 <= k < |words| ==> words[k] != [] && NoSpace(words[k])
    ensures Trim(lead + JoinRuns(words, seps) + tail) == JoinRuns(words, seps)
  {
    var body := JoinRuns(words, seps);
    var first, last := words[0], words[|words| - 1];
    assert NoSpace(first) && NoSpace(last) && first != [] && last != [];
    assert !IsSpace(first[0]) && !IsSpace(last[|last| - 1]);
    JoinRunsStart(words, seps);
    JoinRunsEnd(words, seps);
    TrimUnique(lead, body, tail);
  }

  /** "!fullcheck\t123 " (a tab between the words, a trailing space) runs fullcheck for "123". */
  lemma RouteExample(cfg: Config, msg: Message)
    requires cfg.prefix == "!" && cfg.fullcheckCommand == "fullcheck"
    requires !msg.authorIsBot && msg.authorId in cfg.allowedUserIds
    requires msg.content == "!" + "fullcheck" + "\t" + "123" + " "
    ensures RouteOf(cfg, msg) == Fullcheck("123")
  {
    var words, seps := ["fullcheck", "123"], ["\t"];
    JoinRunsCons("fullcheck", "\t", ["123"], []);
    assert words == ["fullcheck"] + ["123"] && seps == ["\t"] + [];
    assert msg.content == cfg.prefix + "" + JoinRuns(words, seps) + " ";
    assert NoSpace(words[0]) && NoSpace(words[1]) && WhiteRuns(seps);
    LowerKeepsLowerCase(words[0]);
    RouteOfWords(cfg, msg, "", words, seps, " ");
  }
}
