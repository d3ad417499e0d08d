/**
 * The whole message handler of bilal.js:50-414 over a data snapshot: which
 * fixed text, first card or leaderboard image is sent in reply to one
 * message. The clients' fetches are replaced by the snapshot's contents.
 */
module Bot {
  import opened Wrappers
  import opened Command
  import opened Lookup
  import opened Pagination
  import opened Voice
  import opened Leaderboard

  const NoPermissionText := "\U{274C} You do not have permission to use this command."
  const UserNotFoundText := "\U{274C} The specified user was not found."
  const NotSharedText := "\U{274C} The user is not in any shared servers."
  const GeneratingText := "\U{1F3A7} Generating voice stats image..."
  const NoServersText := "\U{274C} No servers found with active voice users."
  const ImageCaption := "**TOP VOICE MA STATISTICS**"
  const ImageFileName := "top_voice_ma.png"

  /** bilal.js:65. */
  function UsageText(cfg: Config): string
  {
    "\U{274C} Usage: `" + cfg.prefix + cfg.fullcheckCommand + " <userID>`"
  }

  /** What the secondary session's fetches and the image loader would return for this message. */
  datatype Snapshot = Snapshot(
    targetUser: Option<User>,       // users.fetch(args[1]), None when it fails
    lookupGuilds: seq<Guild>,       // the guild cache with members.fetch(args[1]) resolved
    voiceGuilds: seq<VoiceGuild>,   // the guild cache with its channels and their members
    iconLoads: string -> bool)      // whether loadImage succeeds for a URL

  datatype Reply =
    | TextReply(text: string)
    | FirstCard(page: Page, row: ButtonRow)
    | ImageReply(caption: string, fileName: string, layout: Layout)

  /**
   * Handle one message. `replies` are the messages sent, in order; `pages`
   * holds the cards that a pagination session is then opened over (empty
   * unless the first card was sent).
   */
  method HandleMessage(cfg: Config, msg: Message, snap: Snapshot) returns (replies: seq<Reply>, pages: seq<Page>)
    ensures var r := RouteOf(cfg, msg); r == Ignored || r == Unrecognised ==> replies == []
    ensures RouteOf(cfg, msg) == PermissionDenied ==> replies == [TextReply(NoPermissionText)]
    ensures RouteOf(cfg, msg) == FullcheckUsage ==> replies == [TextReply(UsageText(cfg))]
    ensures RouteOf(cfg, msg).Fullcheck? && snap.targetUser.None? ==>
      replies == [TextReply(UserNotFoundText)]
    ensures RouteOf(cfg, msg).Fullcheck? && snap.targetUser.Some? && SharedGuilds(snap.lookupGuilds) == [] ==>
      replies == [TextReply(NotSharedText)]
    ensures RouteOf(cfg, msg).Fullcheck? && snap.targetUser.Some? && SharedGuilds(snap.lookupGuilds) != [] ==>
      && |pages| == |SharedGuilds(snap.lookupGuilds)|
      && (forall i :: 0 <= i < |pages| ==>
            var g := SharedGuilds(snap.lookupGuilds)[i];
            pages[i] == MakePage(g, g.member.value, snap.targetUser.value, RouteOf(cfg, msg).userId, i + 1))
      && replies == [FirstCard(pages[0], InitialRow(|pages|))]
    ensures pages != [] <==>
      RouteOf(cfg, msg).Fullcheck? && snap.targetUser.Some? && SharedGuilds(snap.lookupGuilds) != []
    ensures RouteOf(cfg, msg) == Topma ==> |replies| == 2 && replies[0] == TextReply(GeneratingText)
    ensures RouteOf(cfg, msg) == Topma && Qualifying(snap.voiceGuilds) == [] ==>
      replies[1] == TextReply(NoServersText)
    ensures RouteOf(cfg, msg) == Topma && Qualifying(snap.voiceGuilds) != [] ==>
      && replies[1].ImageReply?
      && replies[1].caption == ImageCaption && replies[1].fileName == ImageFileName
      && var top := Top10(SortDesc(Qualifying(snap.voiceGuilds)));
        && 1 <= |top| <= TopCount
        && replies[1].layout.height == CanvasHeight(|top|)
        && |replies[1].layout.rows| == |top|
        && forall i :: 0 <= i < |top| ==>
             replies[1].layout.rows[i] == PlannedRow(top[i], i, |top|, snap.iconLoads(top[i].icon))
  {
    replies, pages := [], [];
    var route := RouteOf(cfg, msg);
    match route {
      case Ignored =>
      case Unrecognised =>
      case PermissionDenied =>
        replies := [TextReply(NoPermissionText)];
      case FullcheckUsage =>
        replies := [TextReply(UsageText(cfg))];
      case Fullcheck(userId) =>
        var out := Lookup.Fullcheck(snap.targetUser, userId, snap.lookupGuilds);
        SharedGuildsEmpty(snap.lookupGuilds);
        match out {
          case UserNotFound =>
            replies := [TextReply(UserNotFoundText)];
          case NoSharedServers =>
            replies := [TextReply(NotSharedText)];
          case Pages(ps) =>
            pages := ps;
            replies := [FirstCard(ps[0], InitialRow(|ps|))];
        }
      case Topma =>
        replies := [TextReply(GeneratingText)];
        var top10 := RankVoiceGuilds(snap.voiceGuilds);
        if |top10| == 0 {
          replies := replies + [TextReply(NoServersText)];
        } else {
          var layout := PlanLayout(top10, snap.iconLoads);
          replies := replies + [ImageReply(ImageCaption, ImageFileName, layout)];
        }
    }
  }
}
