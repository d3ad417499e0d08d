/**
 * The fullcheck command's page builder (bilal.js, lines 68-98): one card per
 * guild in which the member lookup for the target user succeeded, in the
 * order the guilds are enumerated, with a 1-based page number in the footer.
 */
module Lookup {
  import opened Wrappers
  import opened Text

  /** The thumbnail used when a guild has no icon. */
  const PlaceholderIcon := "https://i.imgur.com/AfFp7pu.png"
  const NoRoles := "No roles"
  const NoNickname := "None"

  /** The user record returned by the user fetch. */
  datatype User = User(id: string)

  /** The member record returned by a successful guild member fetch. */
  datatype Member = Member(
    nickname: Option<string>,
    joinedTimestamp: int,       // milliseconds since the epoch
    roleNames: seq<string>,     // the names in the member's role cache, in order
    isAdmin: bool,              // has the ADMINISTRATOR permission
    isBooster: bool)            // premiumSince is set

  /** One guild of the secondary session, with the outcome of the member fetch for the target. */
  datatype Guild = Guild(
    id: string,
    name: string,
    iconUrl: Option<string>,
    ownerId: string,
    member: Option<Member>)     // None when the fetch failed

  /** The card built for one guild. */
  datatype Page = Page(
    title: string,
    thumbnail: string,
    guildName: string,
    guildId: string,
    userId: string,
    nickname: string,
    joinedSeconds: int,
    roles: string,
    owner: string,
    admin: string,
    booster: string,
    footer: string)

  function YesNo(b: bool): (r: string)
    ensures r == "Yes" <==> b
    ensures r == "No" <==> !b
  {
    if b then "Yes" else "No"
  }

  /** `Math.floor(ms / 1000)`: the whole seconds, rounding towards minus infinity. */
  function JoinedSeconds(ms: int): (r: int)
    ensures r * 1000 <= ms < r * 1000 + 1000
  {
    ms / 1000
  }

  /** The role names joined by ", ", or "No roles" when that join is the empty string. */
  function RoleText(names: seq<string>): (r: string)
    ensures (names == [] || names == [[]]) ==> r == NoRoles
    ensures !(names == [] || names == [[]]) ==> r == Join(names, ", ")
  {
    JoinEmpty(names, ", ");
    var j := Join(names, ", ");
    if j == [] then NoRoles else j
  }

  /** The footer of the page with 1-based number n. */
  function Footer(n: nat): (r: string)
    ensures |r| > 5 && r[..5] == "Page " && IsDigits(r[5..]) && DecimalValue(r[5..]) == n
    ensures r[5] == '0' ==> n == 0 && r == "Page 0"
  {
    DecimalRoundTrip(n);
    var r := "Page " + NatToString(n);
    assert r[5..] == NatToString(n);
    r
  }

  /** The card for guild g, whose member fetch returned m, as page number n. */
  function MakePage(g: Guild, m: Member, target: User, userId: string, n: nat): (p: Page)
    ensures p.title == g.name && p.guildName == g.name && p.guildId == g.id && p.userId == target.id
    ensures p.thumbnail == (if g.iconUrl.None? || g.iconUrl.value == "" then PlaceholderIcon else g.iconUrl.value)
    ensures p.nickname == (if m.nickname.None? || m.nickname.value == "" then NoNickname else m.nickname.value)
    ensures p.joinedSeconds * 1000 <= m.joinedTimestamp < p.joinedSeconds * 1000 + 1000
    ensures (m.roleNames == [] || m.roleNames == [[]]) ==> p.roles == NoRoles
    ensures !(m.roleNames == [] || m.roleNames == [[]]) ==> p.roles == Join(m.roleNames, ", ")
    ensures (p.owner == "Yes" <==> g.ownerId == userId) && (p.admin == "Yes" <==> m.isAdmin)
    ensures p.booster == "Yes" <==> m.isBooster
    ensures p.footer == Footer(n)
  {
    Page(
      g.name,
      OrElse(g.iconUrl, PlaceholderIcon),
      g.name,
      g.id,
      target.id,
      OrElse(m.nickname, NoNickname),
      JoinedSeconds(m.joinedTimestamp),
      RoleText(m.roleNames),
      YesNo(g.ownerId == userId),
      YesNo(m.isAdmin),
      YesNo(m.isBooster),
      Footer(n))
  }

  /** The guilds whose member fetch succeeded, in enumeration order. */
  function SharedGuilds(gs: seq<Guild>): (r: seq<Guild>)
    ensures |r| <= |gs|
    ensures forall k :: 0 <= k < |r| ==> r[k].member.Some?
    decreases |gs|
  {
    if gs == [] then []
    else
      var last := gs[|gs| - 1];
      SharedGuilds(gs[..|gs| - 1]) + (if last.member.Some? then [last] else [])
  }

  /** Filtering respects concatenation, so the enumeration order is kept. */
  lemma {:induction false} SharedGuildsAppend(s: seq<Guild>, t: seq<Guild>)
    ensures SharedGuilds(s + t) == SharedGuilds(s) + SharedGuilds(t)
    decreases |t|
  {
    if t != [] {
      var t' := t[..|t| - 1];
      assert (s + t)[..|s + t| - 1] == s + t';
      SharedGuildsAppend(s, t');
    } else {
      assert s + t == s;
    }
  }

  /** A guild is kept exactly when it is in the input and its member fetch succeeded. */
  lemma {:induction false} SharedGuildsMembership(gs: seq<Guild>, g: Guild)
    ensures g in SharedGuilds(gs) <==> g in gs && g.member.Some?
    decreases |gs|
  {
    if gs != [] {
      var init := gs[..|gs| - 1];
      assert gs == init + [gs[|gs| - 1]];
      SharedGuildsMembership(init, g);
    }
  }

  /** No page at all exactly when every member fetch failed. */
  lemma SharedGuildsEmpty(gs: seq<Guild>)
    ensures SharedGuilds(gs) == [] <==> forall k :: 0 <= k < |gs| ==> gs[k].member.None?
  {
    if SharedGuilds(gs) == [] {
      forall k | 0 <= k < |gs| ensures gs[k].member.None? {
        SharedGuildsMembership(gs, gs[k]);
      }
    } else {
      SharedGuildsMembership(gs, SharedGuilds(gs)[0]);
    }
  }

  /**
   * The loop of bilal.js:73-94: walk the guilds, skip the failed lookups and
   * push one page per remaining guild, numbered by the pages already pushed.
   */
  method BuildPages(target: User, userId: string, guilds: seq<Guild>) returns (embeds: seq<Page>)
    ensures |embeds| == |SharedGuilds(guilds)|
    ensures forall i :: 0 <= i < |embeds| ==>
      embeds[i] == MakePage(SharedGuilds(guilds)[i], SharedGuilds(guilds)[i].member.value, target, userId, i + 1)
    ensures forall i :: 0 <= i < |embeds| ==> embeds[i].footer == Footer(i + 1)
  {
    embeds := [];
    for k := 0 to |guilds|
      invariant |embeds| == |SharedGuilds(guilds[..k])|
      invariant forall i :: 0 <= i < |embeds| ==>
        embeds[i] == MakePage(SharedGuilds(guilds[..k])[i], SharedGuilds(guilds[..k])[i].member.value, target, userId, i + 1)
    {
      assert guilds[..k + 1][..k] == guilds[..k];
      var guild := guilds[k];
      if guild.member.None? {
        continue;
      }
      var member := guild.member.value;
      embeds := embeds + [MakePage(guild, member, target, userId, |embeds| + 1)];
    }
    assert guilds[..|guilds|] == guilds;
  }

  /** The outcome of a fullcheck whose argument was accepted. */
  datatype Outcome =
    | UserNotFound
    | NoSharedServers
    | Pages(pages: seq<Page>)

  /** bilal.js:70-98: the user fetch, the page loop and the empty-result check. */
  method Fullcheck(target: Option<User>, userId: string, guilds: seq<Guild>) returns (out: Outcome)
    ensures out == UserNotFound <==> target.None?
    ensures out == NoSharedServers <==> target.Some? && forall k :: 0 <= k < |guilds| ==> guilds[k].member.None?
    ensures out.Pages? ==> target.Some? && |out.pages| == |SharedGuilds(guilds)| >= 1
    ensures out.Pages? ==> forall i :: 0 <= i < |out.pages| ==>
      out.pages[i] == MakePage(SharedGuilds(guilds)[i], SharedGuilds(guilds)[i].member.value, target.value, userId, i + 1)
  {
    SharedGuildsEmpty(guilds);
    if target.None? {
      return UserNotFound;
    }
    var embeds := BuildPages(target.value, userId, guilds);
    if |embeds| == 0 {
      return NoSharedServers;
    }
    return Pages(embeds);
  }
}
