/**
 * The topma command's data (bilal.js, lines 158-190): per guild, the set of
 * distinct non-bot member ids found in its voice channels; the guilds with
 * at least one such member; Array.prototype.sort by count, descending, which
 * ECMAScript 2019 (ECMA-262 10th edition, section 22.1.3.27) requires to be
 * stable; and the first ten of the sorted list.
 */
module Voice {
  import opened Wrappers
  import opened Lookup

  /** The channel types the model distinguishes; only GUILD_VOICE is counted. */
  datatype ChannelType = GuildVoice | GuildStageVoice | GuildText | OtherChannel

  datatype Occupant = Occupant(id: string, isBot: bool)

  datatype Channel = Channel(kind: ChannelType, members: seq<Occupant>)

  /** One guild of the secondary session as the voice aggregation sees it. */
  datatype VoiceGuild = VoiceGuild(name: string, iconUrl: Option<string>, channels: seq<Channel>)

  /** One element of guildsData. */
  datatype Entry = Entry(name: string, count: nat, icon: string)

  const TopCount := 10

  // ---------------------------------------------------------------- aggregation

  /** The ids of the non-bot occupants of a channel. */
  function HumanIds(ms: seq<Occupant>): set<string>
    decreases |ms|
  {
    if ms == [] then {}
    else
      var last := ms[|ms| - 1];
      HumanIds(ms[..|ms| - 1]) + (if last.isBot then {} else {last.id})
  }

  /** A channel yields no more ids than it has occupants. */
  lemma {:induction false} HumanIdsBound(ms: seq<Occupant>)
    ensures |HumanIds(ms)| <= |ms|
    decreases |ms|
  {
    if ms != [] {
      HumanIdsBound(ms[..|ms| - 1]);
    }
  }

  /** The ids of the non-bot occupants of the voice channels among chs. */
  function VoiceIds(chs: seq<Channel>): set<string>
    decreases |chs|
  {
    if chs == [] then {}
    else
      var last := chs[|chs| - 1];
      VoiceIds(chs[..|chs| - 1]) + (if last.kind == GuildVoice then HumanIds(last.members) else {})
  }

  lemma {:induction false} HumanIdsMeaning(ms: seq<Occupant>, id: string)
    ensures id in HumanIds(ms) <==> exists m :: 0 <= m < |ms| && !ms[m].isBot && ms[m].id == id
    decreases |ms|
  {
    if ms != [] {
      var init := ms[..|ms| - 1];
      HumanIdsMeaning(init, id);
      if exists m :: 0 <= m < |ms| && !ms[m].isBot && ms[m].id == id {
        var m :| 0 <= m < |ms| && !ms[m].isBot && ms[m].id == id;
        if m < |init| {
          assert init[m] == ms[m];
        }
      }
    }
  }

  /** Some non-bot occupant of a GUILD_VOICE channel among chs has the given id. */
  ghost predicate InVoice(chs: seq<Channel>, id: string)
  {
    exists c, m :: 0 <= c < |chs| && chs[c].kind == GuildVoice && 0 <= m < |chs[c].members|
      && !chs[c].members[m].isBot && chs[c].members[m].id == id
  }

  /**
   * An id is counted for a guild exactly when some non-bot occupant of one
   * of its GUILD_VOICE channels has it, however many times it occurs.
   */
  lemma {:induction false} VoiceIdsMeaning(chs: seq<Channel>, id: string)
    ensures id in VoiceIds(chs) <==> InVoice(chs, id)
    decreases |chs|
  {
    if chs != [] {
      var init := chs[..|chs| - 1];
      var last := chs[|chs| - 1];
      VoiceIdsMeaning(init, id);
      HumanIdsMeaning(last.members, id);
      if InVoice(chs, id) {
        var c, m :| 0 <= c < |chs| && chs[c].kind == GuildVoice && 0 <= m < |chs[c].members|
          && !chs[c].members[m].isBot && chs[c].members[m].id == id;
        if c < |init| {
          assert init[c] == chs[c];
        }
      }
      if id in VoiceIds(init) {
        var c, m :| 0 <= c < |init| && init[c].kind == GuildVoice && 0 <= m < |init[c].members|
          && !init[c].members[m].isBot && init[c].members[m].id == id;
        assert chs[c] == init[c];
      }
    }
  }

  /** A channel whose non-bot occupants are all counted already leaves the count unchanged. */
  lemma RepeatedOccupantsCountOnce(chs: seq<Channel>, extra: Channel)
    requires HumanIds(extra.members) <= VoiceIds(chs)
    ensures |VoiceIds(chs + [extra])| == |VoiceIds(chs)|
  {
    assert (chs + [extra])[..|chs|] == chs;
    assert VoiceIds(chs + [extra]) == VoiceIds(chs) + (if extra.kind == GuildVoice then HumanIds(extra.members) else {});
    assert VoiceIds(chs + [extra]) == VoiceIds(chs);
  }

  /** The guildsData element pushed for g (bilal.js:174-178). */
  function EntryFor(g: VoiceGuild): (e: Entry)
    ensures e.name == g.name && e.count == |VoiceIds(g.channels)|
    ensures e.icon == (if g.iconUrl.None? || g.iconUrl.value == "" then PlaceholderIcon else g.iconUrl.value)
  {
    Entry(g.name, |VoiceIds(g.channels)|, OrElse(g.iconUrl, PlaceholderIcon))
  }

  /** guildsData after the loop of bilal.js:160-180. */
  function Qualifying(gs: seq<VoiceGuild>): (r: seq<Entry>)
    ensures |r| <= |gs|
    ensures forall k :: 0 <= k < |r| ==> r[k].count >= 1
    decreases |gs|
  {
    if gs == [] then []
    else
      var last := gs[|gs| - 1];
      Qualifying(gs[..|gs| - 1]) + (if |VoiceIds(last.channels)| > 0 then [EntryFor(last)] else [])
  }

  /** The entries keep the guild enumeration order. */
  lemma {:induction false} QualifyingAppend(s: seq<VoiceGuild>, t: seq<VoiceGuild>)
    ensures Qualifying(s + t) == Qualifying(s) + Qualifying(t)
    decreases |t|
  {
    if t != [] {
      var t' := t[..|t| - 1];
      assert (s + t)[..|s + t| - 1] == s + t';
      assert (s + t)[|s + t| - 1] == t[|t| - 1];
      QualifyingAppend(s, t');
    } else {
      assert s + t == s;
    }
  }

  /** A guild contributes an entry exactly when it has at least one counted voice member. */
  lemma QualifyingSingle(g: VoiceGuild)
    ensures Qualifying([g]) == if |VoiceIds(g.channels)| > 0 then [EntryFor(g)] else []
  {
    assert [g][..0] == [];
  }

  /** One more occupant adds its id unless it is a bot. */
  lemma HumanIdsStep(ms: seq<Occupant>, m: nat)
    requires m < |ms|
    ensures HumanIds(ms[..m + 1]) == HumanIds(ms[..m]) + (if ms[m].isBot then {} else {ms[m].id})
  {
    assert ms[..m + 1][..m] == ms[..m];
  }

  /** One more channel adds its non-bot occupants if it is a voice channel. */
  lemma VoiceIdsStep(chs: seq<Channel>, c: nat)
    requires c < |chs|
    ensures VoiceIds(chs[..c + 1])
      == VoiceIds(chs[..c]) + (if chs[c].kind == GuildVoice then HumanIds(chs[c].members) else {})
  {
    assert chs[..c + 1][..c] == chs[..c];
  }

  /** bilal.js:161-171: fill the set from the voice channels' members. */
  method CountVoiceMembers(g: VoiceGuild) returns (voiceMembers: set<string>)
    ensures voiceMembers == VoiceIds(g.channels)
  {
    voiceMembers := {};
    for c := 0 to |g.channels|
      invariant voiceMembers == VoiceIds(g.channels[..c])
    {
      VoiceIdsStep(g.channels, c);
      var channel := g.channels[c];
      if channel.kind != GuildVoice {
        continue;
      }
      ghost var before := voiceMembers;
      for m := 0 to |channel.members|
        invariant voiceMembers == before + HumanIds(channel.members[..m])
      {
        HumanIdsStep(channel.members, m);
        var member := channel.members[m];
        if !member.isBot {
          voiceMembers := voiceMembers + {member.id};
        }
      }
      assert channel.members[..|channel.members|] == channel.members;
    }
    assert g.channels[..|g.channels|] == g.channels;
  }

  /** bilal.js:158-180: the per-guild loop pushing the guilds with a non-zero count. */
  method CollectVoiceData(gs: seq<VoiceGuild>) returns (guildsData: seq<Entry>)
    ensures guildsData == Qualifying(gs)
  {
    guildsData := [];
    for k := 0 to |gs|
      invariant guildsData == Qualifying(gs[..k])
    {
      assert gs[..k + 1][..k] == gs[..k];
      var guild := gs[k];
      var voiceMembers := CountVoiceMembers(guild);
      if |voiceMembers| > 0 {
        guildsData := guildsData + [Entry(guild.name, |voiceMembers|, OrElse(guild.iconUrl, PlaceholderIcon))];
      }
    }
    assert gs[..|gs|] == gs;
  }

  // ---------------------------------------------------------------- stable sort

  ghost predicate SortedDesc(s: seq<Entry>)
  {
    forall i, j :: 0 <= i < j < |s| ==> s[i].count >= s[j].count
  }

  /** The entries of s with count c, in their order in s. */
  function WithCount(s: seq<Entry>, c: nat): seq<Entry>
    decreases |s|
  {
    if s == [] then []
    else (if s[0].count == c then [s[0]] else []) + WithCount(s[1..], c)
  }

  /**
   * Insert x into t behind every element whose count is at least x's: the
   * step of a stable insertion sort with comparator (a, b) => b.count - a.count.
   */
  function Insert(t: seq<Entry>, x: Entry): (r: seq<Entry>)
    ensures |r| == |t| + 1
    decreases |t|
  {
    if t == [] then [x]
    else if t[|t| - 1].count >= x.count then t + [x]
    else Insert(t[..|t| - 1], x) + [t[|t| - 1]]
  }

  /** The result of the stable descending sort of s. */
  function SortDesc(s: seq<Entry>): (r: seq<Entry>)
    ensures |r| == |s|
    decreases |s|
  {
    if s == [] then [] else Insert(SortDesc(s[..|s| - 1]), s[|s| - 1])
  }

  lemma {:induction false} InsertPermutation(t: seq<Entry>, x: Entry)
    ensures multiset(Insert(t, x)) == multiset(t) + multiset{x}
    decreases |t|
  {
    if t != [] && t[|t| - 1].count < x.count {
      var init := t[..|t| - 1];
      assert t == init + [t[|t| - 1]];
      InsertPermutation(init, x);
    }
  }

  /** The sort result is a permutation of its input. */
  lemma {:induction false} SortDescPermutation(s: seq<Entry>)
    ensures multiset(SortDesc(s)) == multiset(s)
    decreases |s|
  {
    if s != [] {
      assert s == s[..|s| - 1] + [s[|s| - 1]];
      SortDescPermutation(s[..|s| - 1]);
      InsertPermutation(SortDesc(s[..|s| - 1]), s[|s| - 1]);
    }
  }

  lemma {:induction false} WithCountAppend(a: seq<Entry>, b: seq<Entry>, c: nat)
    ensures WithCount(a + b, c) == WithCount(a, c) + WithCount(b, c)
    decreases |a|
  {
    if a != [] {
      assert (a + b)[1..] == a[1..] + b;
      WithCountAppend(a[1..], b, c);
    } else {
      assert a + b == b;
    }
  }

  lemma {:induction false} WithCountElements(s: seq<Entry>, c: nat, x: Entry)
    requires x in WithCount(s, c)
    ensures x in s && x.count == c
    decreases |s|
  {
    if s[0] != x || s[0].count != c {
      WithCountElements(s[1..], c, x);
    }
  }

  /** Inserting keeps a lower bound that every element and the new one respect. */
  lemma {:induction false} InsertLowerBound(t: seq<Entry>, x: Entry, b: nat)
    requires forall k :: 0 <= k < |t| ==> t[k].count >= b
    requires x.count >= b
    ensures forall k :: 0 <= k < |Insert(t, x)| ==> Insert(t, x)[k].count >= b
    decreases |t|
  {
    if t != [] && t[|t| - 1].count < x.count {
      InsertLowerBound(t[..|t| - 1], x, b);
    }
  }

  lemma {:induction false} InsertSorted(t: seq<Entry>, x: Entry)
    requires SortedDesc(t)
    ensures SortedDesc(Insert(t, x))
    decreases |t|
  {
    if t != [] && t[|t| - 1].count < x.count {
      var init := t[..|t| - 1];
      var last := t[|t| - 1];
      InsertSorted(init, x);
      InsertLowerBound(init, x, last.count);
      assert Insert(t, x) == Insert(init, x) + [last];
    }
  }

  lemma {:induction false} InsertWithCount(t: seq<Entry>, x: Entry, c: nat)
    ensures WithCount(Insert(t, x), c) == WithCount(t, c) + WithCount([x], c)
    decreases |t|
  {
    if t == [] {
    } else if t[|t| - 1].count >= x.count {
      WithCountAppend(t, [x], c);
    } else {
      var init := t[..|t| - 1];
      var last := t[|t| - 1];
      assert t == init + [last];
      InsertWithCount(init, x, c);
      WithCountAppend(Insert(init, x), [last], c);
      WithCountAppend(init, [x], c);
      WithCountAppend(init, [last], c);
      assert WithCount([x], c) == [] || WithCount([last], c) == [];
    }
  }

  /** The sort result is ordered by count, non-increasing. */
  lemma {:induction false} SortDescSorted(s: seq<Entry>)
    ensures SortedDesc(SortDesc(s))
    decreases |s|
  {
    if s != [] {
      SortDescSorted(s[..|s| - 1]);
      InsertSorted(SortDesc(s[..|s| - 1]), s[|s| - 1]);
    }
  }

  /** Stability: the entries of each count keep their relative order. */
  lemma {:induction false} SortDescStable(s: seq<Entry>, c: nat)
    ensures WithCount(SortDesc(s), c) == WithCount(s, c)
    decreases |s|
  {
    if s != [] {
      var init := s[..|s| - 1];
      var last := s[|s| - 1];
      SortDescStable(init, c);
      assert SortDesc(s) == Insert(SortDesc(init), last);
      InsertWithCount(SortDesc(init), last, c);
      assert s == init + [last];
      WithCountAppend(init, [last], c);
    }
  }

  lemma HasOwnClass(r: seq<Entry>)
    requires r != []
    ensures WithCount(r, r[0].count) != []
  {
  }

  /**
   * Two sequences ordered by count whose entries of each count come in the
   * same order are equal.
   */
  lemma {:induction false} SameClassesEqual(r1: seq<Entry>, r2: seq<Entry>)
    requires SortedDesc(r1) && SortedDesc(r2)
    requires forall c: nat :: WithCount(r1, c) == WithCount(r2, c)
    ensures r1 == r2
    decreases |r1| + |r2|
  {
    if r1 == [] || r2 == [] {
      if r1 != [] {
        HasOwnClass(r1);
        assert false;
      }
      if r2 != [] {
        HasOwnClass(r2);
        assert false;
      }
      return;
    }
    SameHeads(r1, r2);
    SameTailClasses(r1, r2);
    SameClassesEqual(r1[1..], r2[1..]);
    assert r1 == [r1[0]] + r1[1..] && r2 == [r2[0]] + r2[1..];
  }

  /** Two non-empty sorted sequences with the same count classes start with the same entry. */
  lemma SameHeads(r1: seq<Entry>, r2: seq<Entry>)
    requires r1 != [] && r2 != [] && SortedDesc(r1) && SortedDesc(r2)
    requires forall c: nat :: WithCount(r1, c) == WithCount(r2, c)
    ensures r1[0] == r2[0]
  {
    var m1, m2 := r1[0].count, r2[0].count;
    assert r1[0] in WithCount(r1, m1);
    WithCountElements(r2, m1, r1[0]);
    assert m2 >= m1;
    assert r2[0] in WithCount(r2, m2);
    WithCountElements(r1, m2, r2[0]);
    assert m1 >= m2;
    assert WithCount(r1, m1)[0] == r1[0] && WithCount(r2, m1)[0] == r2[0];
  }

  /** Dropping the same first entry from both keeps the count classes equal. */
  lemma SameTailClasses(r1: seq<Entry>, r2: seq<Entry>)
    requires r1 != [] && r2 != [] && r1[0] == r2[0]
    requires forall c: nat :: WithCount(r1, c) == WithCount(r2, c)
    ensures forall c: nat :: WithCount(r1[1..], c) == WithCount(r2[1..], c)
  {
    var m1 := r1[0].count;
    forall c: nat ensures WithCount(r1[1..], c) == WithCount(r2[1..], c) {
      assert WithCount(r1, c) == WithCount(r2, c);
      assert WithCount(r1, c) == (if m1 == c then [r1[0]] else []) + WithCount(r1[1..], c);
      assert WithCount(r2, c) == (if m1 == c then [r1[0]] else []) + WithCount(r2[1..], c);
      if m1 == c {
        assert WithCount(r1[1..], c) == WithCount(r1, c)[1..];
        assert WithCount(r2[1..], c) == WithCount(r2, c)[1..];
      } else {
        assert WithCount(r1, c) == WithCount(r1[1..], c);
        assert WithCount(r2, c) == WithCount(r2[1..], c);
      }
    }
  }

  /**
   * Any stable descending sort of s, whatever its algorithm, produces
   * SortDesc(s): the result of Array.prototype.sort is fully determined.
   */
  lemma SortDescUnique(s: seq<Entry>, r: seq<Entry>)
    requires SortedDesc(r)
    requires forall c: nat :: WithCount(r, c) == WithCount(s, c)
    ensures r == SortDesc(s)
  {
    SortDescSorted(s);
    forall c: nat ensures WithCount(r, c) == WithCount(SortDesc(s), c) {
      SortDescStable(s, c);
    }
    SameClassesEqual(r, SortDesc(s));
  }

  /** Insert places x at position j when the elements before j are at least x and those after are below it. */
  lemma {:induction false} InsertAt(t: seq<Entry>, x: Entry, j: nat)
    requires j <= |t|
    requires j > 0 ==> t[j - 1].count >= x.count
    requires forall k :: j <= k < |t| ==> t[k].count < x.count
    ensures Insert(t, x) == t[..j] + [x] + t[j..]
    decreases |t| - j
  {
    if j == |t| {
      assert t[..j] == t && t[j..] == [];
    } else {
      var init := t[..|t| - 1];
      var last := t[|t| - 1];
      assert last.count < x.count;
      assert Insert(t, x) == Insert(init, x) + [last];
      InsertAt(init, x, j);
      assert init[..j] == t[..j];
      assert init[j..] + [last] == t[j..];
    }
  }

  /**
   * The array contents one pass leaves behind: t's elements before j, then
   * x, then t's elements from j on shifted one place right.
   */
  lemma {:induction false} ShiftedIsInsert(t: seq<Entry>, x: Entry, j: nat, b: seq<Entry>)
    requires j <= |t| && |b| == |t| + 1
    requires j > 0 ==> t[j - 1].count >= x.count
    requires forall k :: j <= k < |t| ==> t[k].count < x.count
    requires forall k :: 0 <= k < j ==> b[k] == t[k]
    requires b[j] == x
    requires forall k :: j < k < |b| ==> b[k] == t[k - 1]
    ensures b == Insert(t, x)
  {
    InsertAt(t, x, j);
    assert b == t[..j] + [x] + t[j..];
  }

  /** One pass of the insertion sort: shift a[i] left past the smaller counts before it. */
  method InsertStep(a: array<Entry>, i: nat)
    requires i < a.Length
    modifies a
    ensures a[..i + 1] == Insert(old(a[..i]), old(a[i]))
    ensures a[i + 1..] == old(a[i + 1..])
  {
    var x := a[i];
    ghost var t := a[..i];
    ghost var rest := a[i + 1..];
    var j := i;
    while j > 0 && a[j - 1].count < x.count
      invariant 0 <= j <= i
      invariant forall k :: 0 <= k < j ==> a[k] == t[k]
      invariant forall k :: j < k <= i ==> a[k] == t[k - 1]
      invariant forall k :: j <= k < i ==> t[k].count < x.count
      invariant a[i + 1..] == rest
    {
      a[j] := a[j - 1];
      j := j - 1;
    }
    a[j] := x;
    ShiftedIsInsert(t, x, j, a[..i + 1]);
  }

  /** guildsData.sort((a, b) => b.count - a.count), as an insertion sort in place. */
  method SortByCount(a: array<Entry>)
    modifies a
    ensures a[..] == SortDesc(old(a[..]))
  {
    ghost var orig := a[..];
    var i := 0;
    while i < a.Length
      invariant 0 <= i <= a.Length
      invariant a[..i] == SortDesc(orig[..i])
      invariant a[i..] == orig[i..]
    {
      InsertStep(a, i);
      assert orig[..i + 1][..i] == orig[..i];
      i := i + 1;
    }
    assert a[..] == a[..a.Length] && orig[..a.Length] == orig;
  }

  // ---------------------------------------------------------------- top ten

  /** `slice(0, 10)`. */
  function Top10(s: seq<Entry>): (r: seq<Entry>)
    ensures |r| == if |s| < TopCount then |s| else TopCount
    ensures r <= s
  {
    if |s| < TopCount then s else s[..TopCount]
  }

  /** The first ten of a sorted list are sorted and none of the rest outranks them. */
  lemma TopTenAreHighest(s: seq<Entry>)
    requires SortedDesc(s)
    ensures SortedDesc(Top10(s))
    ensures forall i, j :: 0 <= i < |Top10(s)| <= j < |s| ==> Top10(s)[i].count >= s[j].count
  {
  }

  /** bilal.js:158-186: aggregate, sort and keep the first ten. */
  method RankVoiceGuilds(gs: seq<VoiceGuild>) returns (top10: seq<Entry>)
    ensures top10 == Top10(SortDesc(Qualifying(gs)))
    ensures |top10| <= TopCount && SortedDesc(top10)
    ensures forall k :: 0 <= k < |top10| ==> top10[k].count >= 1
    ensures top10 == [] <==> Qualifying(gs) == []
  {
    var guildsData := CollectVoiceData(gs);
    var a := new Entry[|guildsData|](k requires 0 <= k < |guildsData| => guildsData[k]);
    assert a[..] == guildsData;
    SortByCount(a);
    top10 := Top10(a[..]);
    RankedTopTen(guildsData);
  }

  /** The first ten of a sorted list of qualifying entries are sorted, qualifying and at most ten. */
  lemma RankedTopTen(q: seq<Entry>)
    requires forall k :: 0 <= k < |q| ==> q[k].count >= 1
    ensures var t := Top10(SortDesc(q));
      |t| <= TopCount && SortedDesc(t) && (forall k :: 0 <= k < |t| ==> t[k].count >= 1) && (t == [] <==> q == [])
  {
    SortDescSorted(q);
    SortKeepsPositive(q);
    TopTenAreHighest(SortDesc(q));
  }

  /** Sorting keeps every count at least 1 when it was so before. */
  lemma SortKeepsPositive(s: seq<Entry>)
    requires forall k :: 0 <= k < |s| ==> s[k].count >= 1
    ensures forall k :: 0 <= k < |SortDesc(s)| ==> SortDesc(s)[k].count >= 1
  {
    SortDescPermutation(s);
    forall k | 0 <= k < |SortDesc(s)| ensures SortDesc(s)[k].count >= 1 {
      assert SortDesc(s)[k] in multiset(SortDesc(s));
      assert SortDesc(s)[k] in multiset(s);
    }
  }

  /** Counts [7, 7, 3, 9] come out as [9, 7, 7, 3], the two sevens in their original order. */
  lemma SortExample(a: Entry, b: Entry, c: Entry, d: Entry)
    requires a.count == 7 && b.count == 7 && c.count == 3 && d.count == 9
    ensures SortDesc([a, b, c, d]) == [d, a, b, c]
  {
    assert [a, b, c, d][..3] == [a, b, c];
    assert [a, b, c][..2] == [a, b];
    assert [a, b][..1] == [a];
    assert [a][..0] == [];
    assert SortDesc([a]) == [a];
    assert SortDesc([a, b]) == [a, b];
    assert SortDesc([a, b, c]) == [a, b, c];
    assert Insert([], d) == [d];
    assert Insert([a], d) == [d, a];
    assert Insert([a, b], d) == [d, a, b];
    assert Insert([a, b, c], d) == [d, a, b, c];
  }
}
