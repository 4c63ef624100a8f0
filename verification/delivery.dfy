/** The body of `check_feeds_loop`: gate on the operating window, scan the feeds, and
    post one message per selected article. The chat client is outside the model: each
    send's outcome is an input, indexed by the position of the article. */
module Delivery {
  import opened Wrappers
  import opened Text
  import opened DedupStore
  import opened FeedScan
  import opened Schedule

  /** Between the emoji and the title. */
  const OpenBold: string := " **"

  /** Between the title and the link. */
  const CloseBold: string := "**\n"

  /** The posted text: the emoji, the title in bold, and the link on its own line. */
  function Format(a: Article): (m: string)
    ensures StartsWith(m, a.emoji + OpenBold)
    ensures |m| == |a.emoji| + |a.title| + |a.link| + 6
  {
    a.emoji + OpenBold + a.title + CloseBold + a.link
  }

  /** The position of the last `c` in `s`, if any. */
  function LastIndexOf(s: string, c: char): (r: Option<nat>)
    ensures r.Some? ==> r.value < |s| && s[r.value] == c
    ensures r.Some? ==> forall j :: r.value < j < |s| ==> s[j] != c
    ensures r.None? ==> c !in s
    decreases |s|
  {
    if s == [] then None
    else if s[|s| - 1] == c then Some(|s| - 1)
    else
      var r := LastIndexOf(s[..|s| - 1], c);
      assert s == s[..|s| - 1] + [s[|s| - 1]];
      r
  }

  /** Reads a message back, given the emoji of its feed: the title is what lies between
      the opening bold marker and the closing one before the last line break, the link
      is the last line. */
  function ParseMessage(m: string, emoji: string): (parsed: Option<Article>) {
    var head := emoji + OpenBold;
    if !StartsWith(m, head) then None
    else
      var rest := m[|head|..];
      match LastIndexOf(rest, '\n')
      case None => None
      case Some(k) =>
        if k < 2 || rest[k - 2..k] != "**" then None
        else Some(Article(rest[..k - 2], rest[k + 1..], emoji))
  }

  /** The last `c` of `x + [c] + y` is the one after `x` when `y` has none. */
  lemma {:induction false} LastIndexAfter(x: string, c: char, y: string)
    requires c !in y
    ensures LastIndexOf(x + [c] + y, c) == Some(|x|)
    decreases |y|
  {
    var s := x + [c] + y;
    if y != [] {
      assert s[..|s| - 1] == x + [c] + y[..|y| - 1];
      LastIndexAfter(x, c, y[..|y| - 1]);
    }
  }

  /** A message whose link has no line break reads back as the article it was made
      from. */
  lemma ParseFormat(a: Article)
    requires '\n' !in a.link
    ensures ParseMessage(Format(a), a.emoji) == Some(a)
  {
    var m := Format(a);
    var head := a.emoji + OpenBold;
    var x := a.title + "**";
    var rest := x + ['\n'] + a.link;
    assert m == head + rest;
    assert m[|head|..] == rest;
    LastIndexAfter(x, '\n', a.link);
    var k := |x|;
    assert rest[k - 2..k] == "**" && rest[..k - 2] == a.title by {
      assert rest[..k] == x;
    }
    assert rest[k + 1..] == a.link;
  }

  /** Whatever reads back as an article is exactly that article's message. */
  lemma FormatParse(m: string, emoji: string)
    requires ParseMessage(m, emoji).Some?
    ensures Format(ParseMessage(m, emoji).value) == m
    ensures '\n' !in ParseMessage(m, emoji).value.link
  {
    var head := emoji + OpenBold;
    var rest := m[|head|..];
    var k := LastIndexOf(rest, '\n').value;
    var a := ParseMessage(m, emoji).value;
    assert rest == a.title + "**" + "\n" + a.link;
    assert m == head + rest;
    assert forall j :: 0 <= j < |a.link| ==> a.link[j] == rest[k + 1 + j];
  }

  /** What the chat client reported for one send. */
  datatype SendOutcome = Sent | Forbidden | SendError

  /** One call of `channel.send`: the text posted and how it went. */
  datatype Attempt = Attempt(message: string, outcome: SendOutcome)

  /** The send loop: every article is posted once, in order; a failed send is logged
      and the loop carries on with the next article. `outcome(i)` is what the client
      reports for the `i`-th send. */
  method SendAll(articles: seq<Article>, outcome: nat -> SendOutcome) returns (attempts: seq<Attempt>)
    ensures |attempts| == |articles|
    ensures forall i :: 0 <= i < |articles| ==> attempts[i] == Attempt(Format(articles[i]), outcome(i))
  {
    attempts := [];
    var i := 0;
    while i < |articles|
      invariant 0 <= i <= |articles|
      invariant |attempts| == i
      invariant forall k :: 0 <= k < i ==> attempts[k] == Attempt(Format(articles[k]), outcome(k))
    {
      var message := Format(articles[i]);
      attempts := attempts + [Attempt(message, outcome(i))];
      i := i + 1;
    }
  }

  /** How one run of the loop body ended: paused outside the window until the next
      opening, or ran a scan and posted its articles. Both carry the store afterwards. */
  datatype Cycle =
    | Paused(store: Store, resume: Instant, wait: nat)
    | Ran(store: Store, articles: seq<Article>, attempts: seq<Attempt>)

  /** One run of `check_feeds_loop`. The clock is read twice: `check` by the gate and,
      when the gate pauses, `agora` by the pause. `channelFound` is whether the
      destination channel could be resolved. */
  method RunCycle(check: Instant, agora: Instant, store: Store, feeds: seq<Feed>, faults: Faults,
                  channelFound: bool, outcome: nat -> SendOutcome) returns (c: Cycle)
    ensures c.Paused? <==> !InWindow(check.time)
    ensures c.Paused? ==> c.store == store && Pause(check, agora) == Some(c.resume)
    ensures c.Paused? ==> c.resume.time == OpensAt && Stamp(agora) <= Stamp(c.resume)
    ensures c.Paused? ==> c.wait == Stamp(c.resume) - Stamp(agora) && c.wait < MicrosPerDay
    ensures c.Paused? && check == agora ==> SingleReadingPause(check) == Some(c.resume)
    ensures c.Ran? ==> c.store == CheckFeeds(store, feeds, faults).store
    ensures c.Ran? ==> c.articles == CheckFeeds(store, feeds, faults).articles
    ensures c.Ran? ==> |c.attempts| == (if channelFound then |c.articles| else 0)
    ensures c.Ran? ==> forall i :: 0 <= i < |c.attempts| ==> c.attempts[i] == Attempt(Format(c.articles[i]), outcome(i))
  {
    var pause := Pause(check, agora);
    if pause.Some? {
      return Paused(store, pause.value, WaitMicros(agora));
    }
    var scan := CheckFeeds(store, feeds, faults);
    var attempts := [];
    if scan.articles != [] && channelFound {
      attempts := SendAll(scan.articles, outcome);
    }
    c := Ran(scan.store, scan.articles, attempts);
  }
}
