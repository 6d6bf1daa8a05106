/**
 * The summariser's text building: the listing of the posts that the model
 * prompt embeds, the plain digest used when the model cannot be reached, and
 * the guard that answers an empty batch without asking the model. Both texts
 * group the posts by account, accounts in order of first appearance and each
 * account's posts in their original order.
 */
module Summarizer {
  import opened Text
  import opened Posts
  import opened OrderedDicts

  /** The accounts of `tweets`, each once, in order of first appearance. */
  function Users(tweets: seq<Post>): seq<string>
    decreases |tweets|
  {
    if tweets == [] then []
    else
      var prior := Users(tweets[..|tweets| - 1]);
      var u := tweets[|tweets| - 1].username;
      if u in prior then prior else prior + [u]
  }

  /** The posts of account `u`, in their order in `tweets`. */
  function Of(tweets: seq<Post>, u: string): seq<Post>
    decreases |tweets|
  {
    if tweets == [] then []
    else
      var last := tweets[|tweets| - 1];
      Of(tweets[..|tweets| - 1], u) + (if last.username == u then [last] else [])
  }

  /** No account is listed twice. */
  lemma {:induction false} UsersDistinct(tweets: seq<Post>)
    ensures forall a, b :: 0 <= a < b < |Users(tweets)| ==> Users(tweets)[a] != Users(tweets)[b]
    decreases |tweets|
  {
    if tweets != [] {
      UsersDistinct(tweets[..|tweets| - 1]);
    }
  }

  /** The listed accounts are exactly the accounts that posted. */
  lemma {:induction false} UsersPosted(tweets: seq<Post>, u: string)
    ensures u in Users(tweets) <==> exists i :: 0 <= i < |tweets| && tweets[i].username == u
    decreases |tweets|
  {
    if tweets != [] {
      var init := tweets[..|tweets| - 1];
      UsersPosted(init, u);
      if u in Users(init) {
        var i :| 0 <= i < |init| && init[i].username == u;
        assert tweets[i] == init[i];
      }
      if exists i :: 0 <= i < |tweets| && tweets[i].username == u {
        var i :| 0 <= i < |tweets| && tweets[i].username == u;
        if i < |init| {
          assert init[i] == tweets[i];
        }
      }
    }
  }

  /** An account's group is non-empty exactly when the account is listed. */
  lemma {:induction false} OfNonEmpty(tweets: seq<Post>, u: string)
    ensures Of(tweets, u) != [] <==> u in Users(tweets)
    decreases |tweets|
  {
    if tweets != [] {
      OfNonEmpty(tweets[..|tweets| - 1], u);
    }
  }

  /** An account's group holds exactly that account's posts. */
  lemma {:induction false} OfMembers(tweets: seq<Post>, u: string, p: Post)
    ensures p in Of(tweets, u) <==> p in tweets && p.username == u
    decreases |tweets|
  {
    if tweets != [] {
      var init := tweets[..|tweets| - 1];
      OfMembers(init, u, p);
      assert tweets == init + [tweets[|tweets| - 1]];
    }
  }

  /** The total size of the groups of `users`. */
  function GroupSizes(users: seq<string>, tweets: seq<Post>): nat
    decreases |users|
  {
    if users == [] then 0
    else GroupSizes(users[..|users| - 1], tweets) + |Of(tweets, users[|users| - 1])|
  }

  lemma {:induction false} GroupSizesStep(users: seq<string>, tweets: seq<Post>)
    requires tweets != []
    requires forall a, b :: 0 <= a < b < |users| ==> users[a] != users[b]
    ensures GroupSizes(users, tweets)
      == GroupSizes(users, tweets[..|tweets| - 1]) + (if tweets[|tweets| - 1].username in users then 1 else 0)
    decreases |users|
  {
    if users != [] {
      var prior := users[..|users| - 1];
      GroupSizesStep(prior, tweets);
      assert users == prior + [users[|users| - 1]];
    }
  }

  /** Grouping neither loses nor repeats a post: the groups' sizes add up to the number of posts. */
  lemma {:induction false} GroupsPartition(tweets: seq<Post>)
    ensures GroupSizes(Users(tweets), tweets) == |tweets|
    decreases |tweets|
  {
    if tweets != [] {
      var init, last := tweets[..|tweets| - 1], tweets[|tweets| - 1];
      GroupsPartition(init);
      UsersDistinct(tweets);
      GroupSizesStep(Users(tweets), tweets);
      if last.username !in Users(init) {
        OfNonEmpty(init, last.username);
        assert GroupSizes(Users(tweets), init) == GroupSizes(Users(init), init) + |Of(init, last.username)|;
      }
    }
  }

  /** How `Users` grows by one post. */
  lemma UsersStep(tweets: seq<Post>, i: nat)
    requires i < |tweets|
    ensures Users(tweets[..i + 1]) == if tweets[i].username in Users(tweets[..i]) then Users(tweets[..i])
                                      else Users(tweets[..i]) + [tweets[i].username]
  {
    assert tweets[..i + 1][..i] == tweets[..i];
  }

  /** How the group of `u` grows by one post. */
  lemma OfStep(tweets: seq<Post>, i: nat, u: string)
    requires i < |tweets|
    ensures Of(tweets[..i + 1], u) == Of(tweets[..i], u) + (if tweets[i].username == u then [tweets[i]] else [])
  {
    assert tweets[..i + 1][..i] == tweets[..i];
  }

  /** `tweetsByUser` groups the posts `done`. */
  ghost predicate Groups(tweetsByUser: Dict<string, seq<Post>>, done: seq<Post>)
  {
    && tweetsByUser.Valid()
    && tweetsByUser.keys == Users(done)
    && forall u :: u in tweetsByUser.entries ==> tweetsByUser.entries[u] == Of(done, u)
  }

  /** One turn of the grouping loop: open the account's list when it is new, then append the post. */
  function AddPost(tweetsByUser: Dict<string, seq<Post>>, tweet: Post): Dict<string, seq<Post>>
  {
    var listed := if tweet.username in tweetsByUser.entries then tweetsByUser else tweetsByUser.Put(tweet.username, []);
    listed.Put(tweet.username, listed.entries[tweet.username] + [tweet])
  }

  lemma GroupsStepKeys(tweetsByUser: Dict<string, seq<Post>>, tweets: seq<Post>, i: nat)
    requires i < |tweets| && Groups(tweetsByUser, tweets[..i])
    ensures AddPost(tweetsByUser, tweets[i]).Valid()
    ensures AddPost(tweetsByUser, tweets[i]).keys == Users(tweets[..i + 1])
  {
    UsersStep(tweets, i);
  }

  lemma GroupsStepEntry(tweetsByUser: Dict<string, seq<Post>>, tweets: seq<Post>, i: nat, u: string)
    requires i < |tweets| && Groups(tweetsByUser, tweets[..i])
    requires u in AddPost(tweetsByUser, tweets[i]).entries
    ensures AddPost(tweetsByUser, tweets[i]).entries[u] == Of(tweets[..i + 1], u)
  {
    OfStep(tweets, i, u);
    if u == tweets[i].username && u !in tweetsByUser.entries {
      UsersStep(tweets, i);
      OfNonEmpty(tweets[..i], u);
    }
  }

  /** One turn of the grouping loop keeps `Groups`. */
  lemma GroupsStep(tweetsByUser: Dict<string, seq<Post>>, tweets: seq<Post>, i: nat)
    requires i < |tweets| && Groups(tweetsByUser, tweets[..i])
    ensures Groups(AddPost(tweetsByUser, tweets[i]), tweets[..i + 1])
  {
    GroupsStepKeys(tweetsByUser, tweets, i);
    forall u | u in AddPost(tweetsByUser, tweets[i]).entries
      ensures AddPost(tweetsByUser, tweets[i]).entries[u] == Of(tweets[..i + 1], u)
    {
      GroupsStepEntry(tweetsByUser, tweets, i, u);
    }
  }

  /** The loop that fills `tweets_by_user`. */
  method GroupByUser(tweets: seq<Post>) returns (tweetsByUser: Dict<string, seq<Post>>)
    ensures tweetsByUser.Valid()
    ensures tweetsByUser.keys == Users(tweets)
    ensures forall u :: u in tweetsByUser.entries ==> tweetsByUser.entries[u] == Of(tweets, u)
  {
    tweetsByUser := Empty();
    var i := 0;
    while i < |tweets|
      invariant 0 <= i <= |tweets|
      invariant Groups(tweetsByUser, tweets[..i])
    {
      var tweet := tweets[i];
      var username := tweet.username;
      GroupsStep(tweetsByUser, tweets, i);
      if username !in tweetsByUser.entries {
        tweetsByUser := tweetsByUser.Put(username, []);
      }
      tweetsByUser := tweetsByUser.Put(username, tweetsByUser.entries[username] + [tweet]);
      i := i + 1;
    }
    assert tweets[..|tweets|] == tweets;
  }

  const ThreadTag: string := "[\U{1F9F5}Thread] "

  /** The first line of post `t` numbered `i`: number, thread tag, time and text. */
  function EntryLine(i: int, t: Post): string
  {
    IntToString(i) + ". " + (if IsThread(t) then ThreadTag else "") + "[" + t.createdAt + "] " + t.text + "\n"
  }

  /** The second line of post `t`: its likes, reposts and url. */
  function MetricsLine(t: Post): string
  {
    "   (\U{2764}\U{FE0F} " + IntToString(t.likes) + " | \U{1F504} " + IntToString(t.retweets)
      + " | \U{1F517} " + t.url + ")\n"
  }

  function Entry(i: int, t: Post): string
  {
    EntryLine(i, t) + MetricsLine(t)
  }

  /** The entries of one account's posts, numbered from 1. */
  function Entries(ts: seq<Post>): string
    decreases |ts|
  {
    if ts == [] then "" else Entries(ts[..|ts| - 1]) + Entry(|ts|, ts[|ts| - 1])
  }

  function SectionHeader(u: string): string
  {
    "\n\n=== @" + u + " ===\n"
  }

  /** The section of account `u`: its header, then the entries of its posts. */
  function Section(u: string, tweets: seq<Post>): string
  {
    SectionHeader(u) + Entries(Of(tweets, u))
  }

  /** The listing of the accounts `users`, each with the entries of its posts. */
  function Sections(users: seq<string>, tweets: seq<Post>): string
    decreases |users|
  {
    if users == [] then ""
    else
      var u := users[|users| - 1];
      Sections(users[..|users| - 1], tweets) + Section(u, tweets)
  }

  lemma SectionsStep(users: seq<string>, k: nat, tweets: seq<Post>)
    requires k < |users|
    ensures Sections(users[..k + 1], tweets)
      == Sections(users[..k], tweets) + Section(users[k], tweets)
  {
    assert users[..k + 1][..k] == users[..k];
  }

  /** `tweets_text`: the listing the prompt embeds. */
  function Listing(tweets: seq<Post>): string
  {
    Sections(Users(tweets), tweets)
  }

  lemma AppendThree(a: string, b: string, c: string)
    ensures a + b + c == a + (b + c)
  {
  }

  lemma AppendTwo(text: string, done: string, a: string, b: string)
    ensures text + done + a + b == text + (done + (a + b))
  {
  }

  /** The inner loop of `create_prompt`: appends the two lines of each of an account's posts. */
  method AppendEntries(text: string, userTweets: seq<Post>) returns (r: string)
    ensures r == text + Entries(userTweets)
  {
    r := text;
    var i := 0;
    while i < |userTweets|
      invariant 0 <= i <= |userTweets|
      invariant r == text + Entries(userTweets[..i])
    {
      assert userTweets[..i + 1][..i] == userTweets[..i];
      ghost var done := Entries(userTweets[..i]);
      ghost var prev := r;
      var line := EntryLine(i + 1, userTweets[i]);
      var metrics := MetricsLine(userTweets[i]);
      r := r + line;
      r := r + metrics;
      AppendTwo(text, done, line, metrics);
      assert Entries(userTweets[..i + 1]) == done + Entry(i + 1, userTweets[i]);
      i := i + 1;
    }
    assert userTweets[..|userTweets|] == userTweets;
  }

  /** One turn of `create_prompt`'s account loop: the header, then the entries of the account's posts. */
  method AppendSection(text: string, username: string, userTweets: seq<Post>, ghost tweets: seq<Post>) returns (r: string)
    requires userTweets == Of(tweets, username)
    ensures r == text + Section(username, tweets)
  {
    r := AppendEntries(text + SectionHeader(username), userTweets);
    AppendThree(text, SectionHeader(username), Entries(userTweets));
  }

  /** `create_prompt`'s grouping and rendering loops; the fixed template around the listing is not modelled. */
  method CreatePrompt(tweets: seq<Post>) returns (tweetsText: string)
    ensures tweetsText == Listing(tweets)
  {
    var tweetsByUser := GroupByUser(tweets);
    KeysMapped(tweetsByUser);
    tweetsText := ListSections(tweetsByUser.keys, tweetsByUser.entries, tweets);
  }

  /** The account loop of `create_prompt`, over `tweets_by_user.items()`. */
  method ListSections(users: seq<string>, groups: map<string, seq<Post>>, ghost tweets: seq<Post>)
    returns (tweetsText: string)
    requires forall k :: 0 <= k < |users| ==> users[k] in groups
    requires forall u :: u in groups ==> groups[u] == Of(tweets, u)
    ensures tweetsText == Sections(users, tweets)
  {
    tweetsText := "";
    var k := 0;
    while k < |users|
      invariant 0 <= k <= |users|
      invariant tweetsText == Sections(users[..k], tweets)
    {
      SectionsStep(users, k, tweets);
      var username := users[k];
      tweetsText := AppendSection(tweetsText, username, groups[username], tweets);
      k := k + 1;
    }
    assert users[..|users|] == users;
  }

  lemma {:induction false} EntriesContain(ts: seq<Post>, j: nat)
    requires j < |ts|
    ensures Contains(Entries(ts), Entry(j + 1, ts[j]))
    decreases |ts|
  {
    var init := ts[..|ts| - 1];
    var last := Entry(|ts|, ts[|ts| - 1]);
    if j == |ts| - 1 {
      ContainsInfix(Entries(init), last, "");
      assert Entries(init) + last + "" == Entries(ts);
    } else {
      EntriesContain(init, j);
      assert init[j] == ts[j];
      ContainsInfix("", Entries(init), last);
      assert "" + Entries(init) + last == Entries(ts);
      ContainsTransitive(Entries(ts), Entries(init), Entry(j + 1, ts[j]));
    }
  }

  lemma {:induction false} SectionsContain(users: seq<string>, tweets: seq<Post>, k: nat)
    requires k < |users|
    ensures Contains(Sections(users, tweets), Section(users[k], tweets))
    decreases |users|
  {
    var init := users[..|users| - 1];
    var u := users[|users| - 1];
    var last := Section(u, tweets);
    assert Sections(users, tweets) == Sections(init, tweets) + last;
    if k == |users| - 1 {
      ContainsInfix(Sections(init, tweets), last, "");
      assert Sections(init, tweets) + last + "" == Sections(users, tweets);
    } else {
      SectionsContain(init, tweets, k);
      assert init[k] == users[k];
      ContainsInfix("", Sections(init, tweets), last);
      assert "" + Sections(init, tweets) + last == Sections(users, tweets);
      ContainsTransitive(Sections(users, tweets), Sections(init, tweets),
                         Section(users[k], tweets));
    }
  }

  /** One account's section, and each of its entries, lie within the listing. */
  lemma ListingShowsAccount(tweets: seq<Post>, u: string, j: nat)
    requires u in Users(tweets) && j < |Of(tweets, u)|
    ensures Contains(Listing(tweets), SectionHeader(u))
    ensures Contains(Listing(tweets), Entry(j + 1, Of(tweets, u)[j]))
  {
    var users := Users(tweets);
    var k :| 0 <= k < |users| && users[k] == u;
    var entries := Entries(Of(tweets, u));
    SectionsContain(users, tweets, k);
    ContainsPart(Listing(tweets), SectionHeader(u), entries);
    EntriesContain(Of(tweets, u), j);
    ContainsTransitive(Listing(tweets), entries, Entry(j + 1, Of(tweets, u)[j]));
  }

  /**
   * The listing has a section headed by every account that posted, and the
   * `j`-th post of an account appears in it as entry number `j + 1`.
   */
  lemma ListingShowsEveryPost(tweets: seq<Post>)
    ensures forall u :: u in Users(tweets) ==> Contains(Listing(tweets), SectionHeader(u))
    ensures forall u, j :: u in Users(tweets) && 0 <= j < |Of(tweets, u)| ==>
      Contains(Listing(tweets), Entry(j + 1, Of(tweets, u)[j]))
  {
    forall u | u in Users(tweets) ensures Contains(Listing(tweets), SectionHeader(u)) {
      OfNonEmpty(tweets, u);
      ListingShowsAccount(tweets, u, 0);
    }
    forall u, j | u in Users(tweets) && 0 <= j < |Of(tweets, u)|
      ensures Contains(Listing(tweets), Entry(j + 1, Of(tweets, u)[j]))
    {
      ListingShowsAccount(tweets, u, j);
    }
  }

  /** The digest's opening: its title and the number of posts. */
  function DigestHeader(n: int): string
  {
    "# AI资讯简报\n\n" + "本次共获取 " + IntToString(n) + " 条推文\n\n"
  }

  /** One shown post: its text cut to 200 characters, and its url. */
  function Bullet(t: Post): string
  {
    "- " + Take(t.text, 200) + "\n" + "  \U{1F517} " + t.url + "\n\n"
  }

  /** `user_tweets[:3]`: the posts of an account that the digest shows. */
  function Shown(ts: seq<Post>): (r: seq<Post>)
    ensures |r| == if |ts| < 3 then |ts| else 3
    ensures r == ts[..|r|]
  {
    if |ts| <= 3 then ts else ts[..3]
  }

  function Bullets(ts: seq<Post>): string
    decreases |ts|
  {
    if ts == [] then "" else Bullets(ts[..|ts| - 1]) + Bullet(ts[|ts| - 1])
  }

  function DigestSection(u: string): string
  {
    "\n## @" + u + "\n"
  }

  /** The digest of account `u`: its heading, then its shown posts. */
  function Digest(u: string, tweets: seq<Post>): string
  {
    DigestSection(u) + Bullets(Shown(Of(tweets, u)))
  }

  /** The digest's body for the accounts `users`: each heading, then its shown posts. */
  function Digests(users: seq<string>, tweets: seq<Post>): string
    decreases |users|
  {
    if users == [] then ""
    else
      var u := users[|users| - 1];
      Digests(users[..|users| - 1], tweets) + Digest(u, tweets)
  }

  lemma DigestsStep(users: seq<string>, k: nat, tweets: seq<Post>)
    requires k < |users|
    ensures Digests(users[..k + 1], tweets)
      == Digests(users[..k], tweets) + Digest(users[k], tweets)
  {
    assert users[..k + 1][..k] == users[..k];
  }

  /** The plain digest of `tweets`. */
  function FallbackSummary(tweets: seq<Post>): string
  {
    DigestHeader(|tweets|) + Digests(Users(tweets), tweets)
  }

  /** The inner loop of `create_fallback_summary`: appends the bullets of the posts shown. */
  method AppendBullets(text: string, shown: seq<Post>) returns (r: string)
    ensures r == text + Bullets(shown)
  {
    r := text;
    var i := 0;
    while i < |shown|
      invariant 0 <= i <= |shown|
      invariant r == text + Bullets(shown[..i])
    {
      assert shown[..i + 1][..i] == shown[..i];
      var tweet := shown[i];
      ghost var done := Bullets(shown[..i]);
      var first := "- " + Take(tweet.text, 200) + "\n";
      var second := "  \U{1F517} " + tweet.url + "\n\n";
      r := r + first;
      r := r + second;
      AppendTwo(text, done, first, second);
      assert Bullet(tweet) == first + second;
      assert Bullets(shown[..i + 1]) == done + Bullet(tweet);
      i := i + 1;
    }
    assert shown[..|shown|] == shown;
  }

  /** One turn of `create_fallback_summary`'s account loop: the heading, then the bullets of `user_tweets[:3]`. */
  method AppendDigest(text: string, username: string, userTweets: seq<Post>, ghost tweets: seq<Post>) returns (r: string)
    requires userTweets == Of(tweets, username)
    ensures r == text + Digest(username, tweets)
  {
    var shown := if |userTweets| <= 3 then userTweets else userTweets[..3];
    assert shown == Shown(userTweets);
    r := AppendBullets(text + DigestSection(username), shown);
    AppendThree(text, DigestSection(username), Bullets(shown));
  }

  /** The account loop of `create_fallback_summary`, over `tweets_by_user.items()`. */
  method DigestBody(users: seq<string>, groups: map<string, seq<Post>>, ghost tweets: seq<Post>)
    returns (body: string)
    requires forall k :: 0 <= k < |users| ==> users[k] in groups
    requires forall u :: u in groups ==> groups[u] == Of(tweets, u)
    ensures body == Digests(users, tweets)
  {
    body := "";
    var k := 0;
    while k < |users|
      invariant 0 <= k <= |users|
      invariant body == Digests(users[..k], tweets)
    {
      DigestsStep(users, k, tweets);
      var username := users[k];
      body := AppendDigest(body, username, groups[username], tweets);
      k := k + 1;
    }
    assert users[..|users|] == users;
  }

  /** `create_fallback_summary`: the header, then the digest of each account. */
  method CreateFallbackSummary(tweets: seq<Post>) returns (summary: string)
    ensures summary == FallbackSummary(tweets)
  {
    summary := "# AI资讯简报\n\n";
    summary := summary + "本次共获取 " + IntToString(|tweets|) + " 条推文\n\n";
    assert summary == DigestHeader(|tweets|);
    var tweetsByUser := GroupByUser(tweets);
    KeysMapped(tweetsByUser);
    var body := DigestBody(tweetsByUser.keys, tweetsByUser.entries, tweets);
    summary := summary + body;
  }

  lemma {:induction false} BulletsContain(ts: seq<Post>, j: nat)
    requires j < |ts|
    ensures Contains(Bullets(ts), Bullet(ts[j]))
    decreases |ts|
  {
    var init := ts[..|ts| - 1];
    var last := Bullet(ts[|ts| - 1]);
    if j == |ts| - 1 {
      ContainsInfix(Bullets(init), last, "");
      assert Bullets(init) + last + "" == Bullets(ts);
    } else {
      BulletsContain(init, j);
      assert init[j] == ts[j];
      ContainsInfix("", Bullets(init), last);
      assert "" + Bullets(init) + last == Bullets(ts);
      ContainsTransitive(Bullets(ts), Bullets(init), Bullet(ts[j]));
    }
  }

  lemma {:induction false} DigestsContain(users: seq<string>, tweets: seq<Post>, k: nat)
    requires k < |users|
    ensures Contains(Digests(users, tweets), Digest(users[k], tweets))
    decreases |users|
  {
    var init := users[..|users| - 1];
    var u := users[|users| - 1];
    var last := Digest(u, tweets);
    assert Digests(users, tweets) == Digests(init, tweets) + last;
    if k == |users| - 1 {
      ContainsInfix(Digests(init, tweets), last, "");
      assert Digests(init, tweets) + last + "" == Digests(users, tweets);
    } else {
      DigestsContain(init, tweets, k);
      assert init[k] == users[k];
      ContainsInfix("", Digests(init, tweets), last);
      assert "" + Digests(init, tweets) + last == Digests(users, tweets);
      ContainsTransitive(Digests(users, tweets), Digests(init, tweets),
                         Digest(users[k], tweets));
    }
  }

  /** The `j`-th post of a listed account, for `j` below 3, has its bullet in the digest. */
  lemma FallbackShowsPost(tweets: seq<Post>, u: string, j: nat)
    requires u in Users(tweets) && j < |Of(tweets, u)| && j < 3
    ensures Contains(FallbackSummary(tweets), Bullet(Of(tweets, u)[j]))
  {
    var users := Users(tweets);
    var body := Digests(users, tweets);
    var k :| 0 <= k < |users| && users[k] == u;
    var shown := Shown(Of(tweets, u));
    assert shown[j] == Of(tweets, u)[j];
    ContainsInfix(DigestHeader(|tweets|), body, "");
    assert DigestHeader(|tweets|) + body + "" == FallbackSummary(tweets);
    DigestsContain(users, tweets, k);
    ContainsTransitive(FallbackSummary(tweets), body, Digest(u, tweets));
    ContainsPart(FallbackSummary(tweets), DigestSection(u), Bullets(shown));
    BulletsContain(shown, j);
    ContainsTransitive(FallbackSummary(tweets), Bullets(shown), Bullet(shown[j]));
  }

  /**
   * The digest opens with the number of posts, and shows the first three
   * posts of every account that posted (all of them when it has fewer),
   * each with its text cut to at most 200 characters.
   */
  lemma FallbackShowsFirstThree(tweets: seq<Post>)
    ensures IsPrefix(DigestHeader(|tweets|), FallbackSummary(tweets))
    ensures forall u, j :: u in Users(tweets) && 0 <= j < |Of(tweets, u)| && j < 3 ==>
      Contains(FallbackSummary(tweets), Bullet(Of(tweets, u)[j]))
    ensures forall t: Post :: |Take(t.text, 200)| <= 200 && IsPrefix(Take(t.text, 200), t.text)
  {
    var header := DigestHeader(|tweets|);
    assert (header + Digests(Users(tweets), tweets))[..|header|] == header;
    forall u, j | u in Users(tweets) && 0 <= j < |Of(tweets, u)| && j < 3
      ensures Contains(FallbackSummary(tweets), Bullet(Of(tweets, u)[j]))
    {
      FallbackShowsPost(tweets, u, j);
    }
    forall t: Post ensures |Take(t.text, 200)| <= 200 && IsPrefix(Take(t.text, 200), t.text) {
      TakeIsPrefix(t.text, 200);
    }
  }

  const NoTweetsMessage: string := "\U{274C} 没有获取到任何推文，无法生成报告。"

  /** What `summarize` does next: answer at once, or ask the model with a prompt built from the listing. */
  datatype SummaryStep = Report(text: string) | AskModel(listing: string)

  /** `summarize`'s guard: an empty batch gets the fixed message and the model is not asked. */
  method Summarize(tweets: seq<Post>) returns (step: SummaryStep)
    ensures tweets == [] <==> step == Report(NoTweetsMessage)
    ensures tweets != [] ==> step == AskModel(Listing(tweets))
  {
    if tweets == [] {
      return Report(NoTweetsMessage);
    }
    var prompt := CreatePrompt(tweets);
    step := AskModel(prompt);
  }
}
