/**
 The scroll monitor of the Bluesky auto-moderator (`monitor_user_scroll` in main.py) and the
 session `main` runs: one initial pass of the filter, then a new pass each time the page's
 vertical scroll offset differs from the one seen at the previous check.

 The endless polling loop is cut to a finite run of checks. At each check the renderer may have
 appended newly loaded feed items to the page; a `Tick` carries that growth, the outcome of the
 offset read and whether the lookup of the feed items fails if a pass runs. An exception that
 escapes a pass or an offset read is not caught by the monitor nor by `main` (which only catches
 `KeyboardInterrupt`), so it ends the session.
 */
module Scroll {
  import opened Wrappers
  import opened Strings
  import opened Filter

  /** One check of the polling loop: the feed items loaded since the previous check, the value of
      `window.pageYOffset` it reads (`None` when `execute_script` raises), and whether the
      `find_elements` call of a pass run at this check raises. */
  datatype Tick = Tick(offset: Option<int>, lookupFails: bool, loaded: seq<PostElement>)

  /** The state of a session: processed ids, rendered items, the last offset a pass ran for
      (`last_scroll`), the number of passes run and whether an exception escaped. */
  datatype Monitored = Monitored(processed: set<string>, items: seq<PostElement>, last: int, passes: nat, raised: bool)

  /** `after` is `before`, or `before` removed from the page while it was still rendered. */
  predicate KeptOrRemoved(before: PostElement, after: PostElement) {
    after == before || (!before.removed && after == before.(removed := true))
  }

  /** `after` is `before` with some items that were still rendered removed, and nothing else changed. */
  predicate OnlyRemoves(before: seq<PostElement>, after: seq<PostElement>) {
    |after| == |before| && forall k :: 0 <= k < |before| ==> KeptOrRemoved(before[k], after[k])
  }

  /** All the items the renderer loads over `ticks`, in order. */
  function Loaded(ticks: seq<Tick>): (items: seq<PostElement>)
    ensures ticks == [] ==> items == []
    decreases |ticks|
  {
    if ticks == [] then [] else Loaded(ticks[..|ticks| - 1]) + ticks[|ticks| - 1].loaded
  }

  /** The check `t` reads an offset other than `last`. */
  predicate Moved(last: int, t: Tick) {
    t.offset.Some? && t.offset.value != last
  }

  /** One iteration of the loop of `monitor_user_scroll` in a session no exception has ended:
      the page grows by the loaded items, then the offset is read and a pass runs if it moved;
      `last_scroll` takes the new offset once the pass has returned. */
  function Step(banwords: seq<string>, md5Hex: string -> string, m: Monitored, t: Tick): (m': Monitored)
    requires !m.raised
    ensures m.processed <= m'.processed
    ensures OnlyRemoves(m.items + t.loaded, m'.items)
    ensures m'.passes == m.passes + (if Moved(m.last, t) then 1 else 0)
    ensures t.offset.None? ==> m'.raised
    ensures !m'.raised ==> t.offset == Some(m'.last)
  {
    var items := m.items + t.loaded;
    match t.offset
    case None => m.(items := items, raised := true)
    case Some(offset) =>
      if offset == m.last then m.(items := items)
      else if t.lookupFails then m.(items := items, passes := m.passes + 1, raised := true)
      else
        var r := Pass(banwords, md5Hex, m.processed, items);
        Monitored(r.processed, r.items, if r.raised then m.last else offset, m.passes + 1, r.raised)
  }

  /** `monitor_user_scroll` over the checks `ticks`, from the session state `m0`. Once an exception
      has escaped, the session is over and later checks change nothing. */
  function Monitor(banwords: seq<string>, md5Hex: string -> string, m0: Monitored, ticks: seq<Tick>): (m: Monitored)
    ensures m0.processed <= m.processed
    ensures m0.passes <= m.passes
    ensures m0.raised ==> m == m0
    decreases |ticks|
  {
    if ticks == [] then m0
    else
      var before := Monitor(banwords, md5Hex, m0, ticks[..|ticks| - 1]);
      if before.raised then before else Step(banwords, md5Hex, before, ticks[|ticks| - 1])
  }

  /** The session of `main`: the initial pass over the feed from no processed id (`lookupFails`
      tells that its `find_elements` raises), then the monitor from the offset `r0` it reads first
      (`None` when that read raises), counting the initial pass. `last` is 0 when the session
      ends before an offset is read. A session no exception ends keeps every item ever rendered
      in its place and changes one only by removing it. */
  function Session(banwords: seq<string>, md5Hex: string -> string, feed: seq<PostElement>, lookupFails: bool,
                   r0: Option<int>, ticks: seq<Tick>): (s: Monitored)
    ensures s.passes >= 1
    ensures !s.raised ==> OnlyRemoves(feed + Loaded(ticks), s.items)
  {
    if lookupFails then Monitored({}, feed, 0, 1, true)
    else
      var r := Pass(banwords, md5Hex, {}, feed);
      if r.raised || r0.None? then Monitored(r.processed, r.items, 0, 1, true)
      else
        var m0 := Monitored(r.processed, r.items, r0.value, 0, false);
        var m := Monitor(banwords, md5Hex, m0, ticks);
        if m.raised then m.(passes := m.passes + 1)
        else
          MonitorOnlyRemoves(banwords, md5Hex, m0, ticks);
          OnlyRemovesThenGrow(feed, r.items, Loaded(ticks), m.items);
          m.(passes := m.passes + 1)
  }

  /** The offset read last, `r` when no check read one. */
  function LastReading(r: int, ticks: seq<Tick>): int
    decreases |ticks|
  {
    if ticks == [] then r
    else match ticks[|ticks| - 1].offset
      case None => LastReading(r, ticks[..|ticks| - 1])
      case Some(offset) => offset
  }

  /** The number of checks that read an offset other than the one read last before them, `r`
      standing for the reading before the first check. */
  function Changes(r: int, ticks: seq<Tick>): nat
    decreases |ticks|
  {
    if ticks == [] then 0
    else
      var init := ticks[..|ticks| - 1];
      Changes(r, init) + (if Moved(LastReading(r, init), ticks[|ticks| - 1]) then 1 else 0)
  }

  /** When every check that reads an offset reads `r`, the offset read last is `r`. */
  lemma {:induction false} StillReading(r: int, ticks: seq<Tick>)
    requires forall i :: 0 <= i < |ticks| ==> ticks[i].offset.Some? ==> ticks[i].offset.value == r
    ensures LastReading(r, ticks) == r
    decreases |ticks|
  {
    if ticks != [] {
      StillReading(r, ticks[..|ticks| - 1]);
    }
  }

  /** No offset changes exactly when every check that reads an offset reads the first one. */
  lemma {:induction false} NoChangesIffStill(r: int, ticks: seq<Tick>)
    ensures Changes(r, ticks) == 0 <==> forall i :: 0 <= i < |ticks| ==> ticks[i].offset.Some? ==> ticks[i].offset.value == r
    decreases |ticks|
  {
    if ticks != [] {
      var init := ticks[..|ticks| - 1];
      NoChangesIffStill(r, init);
      assert forall i :: 0 <= i < |init| ==> init[i] == ticks[i];
      if forall i :: 0 <= i < |init| ==> init[i].offset.Some? ==> init[i].offset.value == r {
        StillReading(r, init);
      }
    }
  }

  /** The monitor over one more check, in a session no exception has ended, is the monitor over
      the others followed by that check. */
  lemma {:induction false} MonitorSnoc(banwords: seq<string>, md5Hex: string -> string, m0: Monitored, ticks: seq<Tick>, t: Tick)
    requires !Monitor(banwords, md5Hex, m0, ticks).raised
    ensures Monitor(banwords, md5Hex, m0, ticks + [t]) == Step(banwords, md5Hex, Monitor(banwords, md5Hex, m0, ticks), t)
  {
    assert (ticks + [t])[..|ticks|] == ticks;
  }

  /** A session an exception has ended stays as it was, whatever checks follow. */
  lemma {:induction false} MonitorRaisedRest(banwords: seq<string>, md5Hex: string -> string, m0: Monitored,
                                             xs: seq<Tick>, ys: seq<Tick>)
    requires Monitor(banwords, md5Hex, m0, xs).raised
    ensures Monitor(banwords, md5Hex, m0, xs + ys) == Monitor(banwords, md5Hex, m0, xs)
    decreases |ys|
  {
    if ys == [] {
      assert xs + ys == xs;
    } else {
      var ys' := ys[..|ys| - 1];
      assert (xs + ys)[..|xs + ys| - 1] == xs + ys';
      MonitorRaisedRest(banwords, md5Hex, m0, xs, ys');
    }
  }

  /** While no exception escapes, the monitor runs exactly one pass per change of the offset, and
      `last_scroll` ends as the offset read last. */
  lemma {:induction false} MonitorCounts(banwords: seq<string>, md5Hex: string -> string, m0: Monitored, ticks: seq<Tick>)
    requires !Monitor(banwords, md5Hex, m0, ticks).raised
    ensures var m := Monitor(banwords, md5Hex, m0, ticks);
            m.passes == m0.passes + Changes(m0.last, ticks) && m.last == LastReading(m0.last, ticks)
    decreases |ticks|
  {
    if ticks != [] {
      var init := ticks[..|ticks| - 1];
      assert !Monitor(banwords, md5Hex, m0, init).raised;
      MonitorCounts(banwords, md5Hex, m0, init);
    }
  }

  /** Whether or not an exception ends it, the monitor runs at most one pass per change of the offset. */
  lemma {:induction false} MonitorPassesBound(banwords: seq<string>, md5Hex: string -> string, m0: Monitored, ticks: seq<Tick>)
    ensures Monitor(banwords, md5Hex, m0, ticks).passes <= m0.passes + Changes(m0.last, ticks)
    decreases |ticks|
  {
    if ticks != [] {
      var init := ticks[..|ticks| - 1];
      if Monitor(banwords, md5Hex, m0, init).raised {
        MonitorPassesBound(banwords, md5Hex, m0, init);
      } else {
        MonitorCounts(banwords, md5Hex, m0, init);
      }
    }
  }

  /** While every check reads the same offset, no pass runs: the page only grows by the loaded items. */
  lemma {:induction false} MonitorStill(banwords: seq<string>, md5Hex: string -> string, m0: Monitored, ticks: seq<Tick>)
    requires !m0.raised
    requires forall i :: 0 <= i < |ticks| ==> ticks[i].offset == Some(m0.last)
    ensures Monitor(banwords, md5Hex, m0, ticks) == m0.(items := m0.items + Loaded(ticks))
    decreases |ticks|
  {
    if ticks == [] {
      assert m0.items + [] == m0.items;
    } else {
      var init, t := ticks[..|ticks| - 1], ticks[|ticks| - 1];
      MonitorStill(banwords, md5Hex, m0, init);
      var before := m0.(items := m0.items + Loaded(init));
      StepIdles(banwords, md5Hex, before, t);
      assert Loaded(ticks) == Loaded(init) + t.loaded;
      assert before.items + t.loaded == m0.items + Loaded(ticks);
    }
  }

  /** Removing some items, letting the page grow, then removing some more amounts to letting the
      page grow and removing some items. */
  lemma {:induction false} OnlyRemovesThenGrow(a: seq<PostElement>, b: seq<PostElement>, more: seq<PostElement>, c: seq<PostElement>)
    requires OnlyRemoves(a, b) && OnlyRemoves(b + more, c)
    ensures OnlyRemoves(a + more, c)
  {
    forall k | 0 <= k < |a + more| ensures KeptOrRemoved((a + more)[k], c[k]) {
      if k < |a| {
        assert (a + more)[k] == a[k] && (b + more)[k] == b[k];
      } else {
        assert (a + more)[k] == (b + more)[k];
      }
    }
  }

  /** The monitor keeps every item the page ever rendered in its place, and changes one only by
      removing it. */
  lemma {:induction false} MonitorOnlyRemoves(banwords: seq<string>, md5Hex: string -> string, m0: Monitored, ticks: seq<Tick>)
    requires !Monitor(banwords, md5Hex, m0, ticks).raised
    ensures OnlyRemoves(m0.items + Loaded(ticks), Monitor(banwords, md5Hex, m0, ticks).items)
    decreases |ticks|
  {
    if ticks == [] {
      assert m0.items + [] == m0.items;
    } else {
      var init, t := ticks[..|ticks| - 1], ticks[|ticks| - 1];
      var a, b, c := m0.items + Loaded(init), Monitor(banwords, md5Hex, m0, init).items, Monitor(banwords, md5Hex, m0, ticks).items;
      MonitorLastStep(banwords, md5Hex, m0, ticks);
      MonitorOnlyRemoves(banwords, md5Hex, m0, init);
      OnlyRemovesThenGrow(a, b, t.loaded, c);
      assert Loaded(ticks) == Loaded(init) + t.loaded;
      assert a + t.loaded == m0.items + Loaded(ticks);
    }
  }

  /** The last check of a session no exception has ended only lets the page grow and removes
      some items. */
  lemma MonitorLastStep(banwords: seq<string>, md5Hex: string -> string, m0: Monitored, ticks: seq<Tick>)
    requires ticks != [] && !Monitor(banwords, md5Hex, m0, ticks).raised
    ensures var before := Monitor(banwords, md5Hex, m0, ticks[..|ticks| - 1]);
            !before.raised && OnlyRemoves(before.items + ticks[|ticks| - 1].loaded, Monitor(banwords, md5Hex, m0, ticks).items)
  {
  }

  /** Right after a check that saw the offset move and whose pass completed, every item on the
      page is settled: a pass run then would change nothing. */
  lemma SettledAfterScroll(banwords: seq<string>, md5Hex: string -> string, m0: Monitored, ticks: seq<Tick>)
    requires ticks != [] && !Monitor(banwords, md5Hex, m0, ticks).raised
    requires Moved(LastReading(m0.last, ticks[..|ticks| - 1]), ticks[|ticks| - 1])
    ensures var m := Monitor(banwords, md5Hex, m0, ticks);
            forall k :: 0 <= k < |m.items| ==> Settled(banwords, md5Hex, m.processed, m.items[k])
  {
    var init, t := ticks[..|ticks| - 1], ticks[|ticks| - 1];
    var before := Monitor(banwords, md5Hex, m0, init);
    assert !before.raised;
    MonitorCounts(banwords, md5Hex, m0, init);
    PassSettles(banwords, md5Hex, before.processed, before.items + t.loaded);
  }

  /** When nothing new is rendered, scrolling over settled items runs passes that change nothing:
      whether or not an exception ends the session, the ids and the page stay as they were, and
      when none does, only `last_scroll` and the pass count move. */
  lemma {:induction false} MonitorAtRest(banwords: seq<string>, md5Hex: string -> string, m0: Monitored, ticks: seq<Tick>)
    requires !m0.raised && Loaded(ticks) == []
    requires forall k :: 0 <= k < |m0.items| ==> Settled(banwords, md5Hex, m0.processed, m0.items[k])
    ensures var m := Monitor(banwords, md5Hex, m0, ticks);
            && m.items == m0.items && m.processed == m0.processed
            && (!m.raised ==> m == m0.(last := LastReading(m0.last, ticks), passes := m0.passes + Changes(m0.last, ticks)))
    decreases |ticks|
  {
    if ticks != [] {
      var init, t := ticks[..|ticks| - 1], ticks[|ticks| - 1];
      assert |Loaded(init)| + |t.loaded| == 0;
      MonitorAtRest(banwords, md5Hex, m0, init);
      var before := Monitor(banwords, md5Hex, m0, init);
      assert before.items + t.loaded == m0.items;
      if !before.raised && t.offset.Some? && t.offset.value != before.last && !t.lookupFails {
        PassOverSettled(banwords, md5Hex, m0.processed, m0.items);
        StepRuns(banwords, md5Hex, before, t, PassState(m0.processed, m0.items, false));
      }
      if !Monitor(banwords, md5Hex, m0, ticks).raised {
        MonitorCounts(banwords, md5Hex, m0, ticks);
      }
    }
  }

  /** A session no exception ends read a first offset and ran one pass more than the number of
      offset changes. */
  lemma SessionPasses(banwords: seq<string>, md5Hex: string -> string, feed: seq<PostElement>, lookupFails: bool,
                      r0: Option<int>, ticks: seq<Tick>)
    requires !Session(banwords, md5Hex, feed, lookupFails, r0, ticks).raised
    ensures r0.Some? && Session(banwords, md5Hex, feed, lookupFails, r0, ticks).passes == 1 + Changes(r0.value, ticks)
  {
    var r := Pass(banwords, md5Hex, {}, feed);
    MonitorCounts(banwords, md5Hex, Monitored(r.processed, r.items, r0.value, 0, false), ticks);
  }

  /** When every check reads the first offset, the initial pass is the only one: the page only
      grows by the loaded items. */
  lemma SessionStill(banwords: seq<string>, md5Hex: string -> string, feed: seq<PostElement>, r0: int, ticks: seq<Tick>)
    requires !Pass(banwords, md5Hex, {}, feed).raised
    requires forall i :: 0 <= i < |ticks| ==> ticks[i].offset == Some(r0)
    ensures var r := Pass(banwords, md5Hex, {}, feed);
            Session(banwords, md5Hex, feed, false, Some(r0), ticks)
            == Monitored(r.processed, r.items + Loaded(ticks), r0, 1, false)
  {
    var r := Pass(banwords, md5Hex, {}, feed);
    MonitorStill(banwords, md5Hex, Monitored(r.processed, r.items, r0, 0, false), ticks);
  }

  /** On a page where nothing new is rendered, the session ends with the ids and the page its
      initial pass left: the later passes remove nothing, whether or not an exception ends it. */
  lemma SessionAtRest(banwords: seq<string>, md5Hex: string -> string, feed: seq<PostElement>, r0: Option<int>,
                      ticks: seq<Tick>)
    requires !Pass(banwords, md5Hex, {}, feed).raised && Loaded(ticks) == []
    ensures var r, s := Pass(banwords, md5Hex, {}, feed), Session(banwords, md5Hex, feed, false, r0, ticks);
            s.processed == r.processed && s.items == r.items
  {
    var r := Pass(banwords, md5Hex, {}, feed);
    PassSettles(banwords, md5Hex, {}, feed);
    if r0.Some? {
      MonitorAtRest(banwords, md5Hex, Monitored(r.processed, r.items, r0.value, 0, false), ticks);
    }
  }

  /** The monitor over the first `i + 1` checks goes on from the monitor over the first `i`. */
  lemma MonitorOneMore(banwords: seq<string>, md5Hex: string -> string, m0: Monitored, ticks: seq<Tick>, i: nat,
                       before: Monitored, after: Monitored)
    requires i < |ticks| && Monitor(banwords, md5Hex, m0, ticks[..i]) == before && !before.raised
    requires Step(banwords, md5Hex, before, ticks[i]) == after
    ensures Monitor(banwords, md5Hex, m0, ticks[..i + 1]) == after
  {
    MonitorSnoc(banwords, md5Hex, m0, ticks[..i], ticks[i]);
    assert ticks[..i] + [ticks[i]] == ticks[..i + 1];
  }

  /** The monitor over a prefix of the checks is the monitor over all of them once they are all
      done or an exception has ended the session. */
  lemma MonitorDone(banwords: seq<string>, md5Hex: string -> string, m0: Monitored, ticks: seq<Tick>, i: nat,
                    m: Monitored)
    requires i <= |ticks| && Monitor(banwords, md5Hex, m0, ticks[..i]) == m && (m.raised || i == |ticks|)
    ensures Monitor(banwords, md5Hex, m0, ticks) == m
  {
    if m.raised {
      MonitorRaisedRest(banwords, md5Hex, m0, ticks[..i], ticks[i..]);
      assert ticks[..i] + ticks[i..] == ticks;
    } else {
      assert ticks[..i] == ticks;
    }
  }

  /** A check that sees the offset move runs a pass over the grown page, unless the lookup of
      its items raises. */
  lemma StepRuns(banwords: seq<string>, md5Hex: string -> string, m: Monitored, t: Tick, r: PassState)
    requires !m.raised && Moved(m.last, t) && !t.lookupFails
    requires Pass(banwords, md5Hex, m.processed, m.items + t.loaded) == r
    ensures Step(banwords, md5Hex, m, t)
            == Monitored(r.processed, r.items, if r.raised then m.last else t.offset.value, m.passes + 1, r.raised)
  {
  }

  /** A check that sees the offset move whose lookup raises ends the session after the page grew. */
  lemma StepLookupFails(banwords: seq<string>, md5Hex: string -> string, m: Monitored, t: Tick)
    requires !m.raised && Moved(m.last, t) && t.lookupFails
    ensures Step(banwords, md5Hex, m, t) == m.(items := m.items + t.loaded, passes := m.passes + 1, raised := true)
  {
  }

  /** A check whose offset read raises ends the session after the page grew. */
  lemma StepReadFails(banwords: seq<string>, md5Hex: string -> string, m: Monitored, t: Tick)
    requires !m.raised && t.offset.None?
    ensures Step(banwords, md5Hex, m, t) == m.(items := m.items + t.loaded, raised := true)
  {
  }

  /** A check that reads the same offset only lets the page grow. */
  lemma StepIdles(banwords: seq<string>, md5Hex: string -> string, m: Monitored, t: Tick)
    requires !m.raised && t.offset == Some(m.last)
    ensures Step(banwords, md5Hex, m, t) == m.(items := m.items + t.loaded)
  {
  }

  /** `monitor_user_scroll` over the checks `ticks`, from the offset `r0` it reads first (`None`
      when that read raises, which ends the session before any check). The renderer's growth of
      the page is applied at each check. */
  method MonitorUserScroll(filter: BlueskyFilter, r0: Option<int>, ticks: seq<Tick>) returns (passes: nat, raised: bool)
    modifies filter, filter.page
    ensures r0.None? ==> raised && passes == 0 && filter.processedPosts == old(filter.processedPosts)
                         && filter.page.feedItems == old(filter.page.feedItems)
    ensures r0.Some? ==>
              var m := Monitor(filter.banwords, filter.md5Hex,
                               Monitored(old(filter.processedPosts), old(filter.page.feedItems), r0.value, 0, false), ticks);
              m.processed == filter.processedPosts && m.items == filter.page.feedItems
              && m.passes == passes && m.raised == raised
  {
    if r0.None? {
      return 0, true;
    }
    ghost var m0 := Monitored(filter.processedPosts, filter.page.feedItems, r0.value, 0, false);
    var lastScroll := r0.value;
    passes, raised := 0, false;
    var i := 0;
    while i < |ticks| && !raised
      invariant 0 <= i <= |ticks|
      invariant Monitor(filter.banwords, filter.md5Hex, m0, ticks[..i])
                == Monitored(filter.processedPosts, filter.page.feedItems, lastScroll, passes, raised)
    {
      ghost var before := Monitored(filter.processedPosts, filter.page.feedItems, lastScroll, passes, false);
      lastScroll, passes, raised := CheckScroll(filter, lastScroll, passes, ticks[i]);
      MonitorOneMore(filter.banwords, filter.md5Hex, m0, ticks, i, before,
                     Monitored(filter.processedPosts, filter.page.feedItems, lastScroll, passes, raised));
      i := i + 1;
    }
    MonitorDone(filter.banwords, filter.md5Hex, m0, ticks, i,
                Monitored(filter.processedPosts, filter.page.feedItems, lastScroll, passes, raised));
  }

  /** One iteration of the loop of `monitor_user_scroll`: the renderer grows the page, then the
      offset is read and compared with `last_scroll`. */
  method CheckScroll(filter: BlueskyFilter, lastScroll: int, passes: nat, t: Tick)
    returns (newLast: int, newPasses: nat, raised: bool)
    modifies filter, filter.page
    ensures Step(filter.banwords, filter.md5Hex,
                 Monitored(old(filter.processedPosts), old(filter.page.feedItems), lastScroll, passes, false), t)
            == Monitored(filter.processedPosts, filter.page.feedItems, newLast, newPasses, raised)
  {
    ghost var before := Monitored(filter.processedPosts, filter.page.feedItems, lastScroll, passes, false);
    filter.page.feedItems := filter.page.feedItems + t.loaded;
    newLast, newPasses, raised := lastScroll, passes, false;
    match t.offset {
      case None =>
        raised := true;
        StepReadFails(filter.banwords, filter.md5Hex, before, t);
      case Some(currentScroll) =>
        if currentScroll != lastScroll {
          raised := filter.FilterPosts(t.lookupFails);
          newPasses := passes + 1;
          if t.lookupFails {
            StepLookupFails(filter.banwords, filter.md5Hex, before, t);
          } else {
            StepRuns(filter.banwords, filter.md5Hex, before, t,
                     PassState(filter.processedPosts, filter.page.feedItems, raised));
          }
          if !raised {
            newLast := currentScroll;
          }
        } else {
          StepIdles(filter.banwords, filter.md5Hex, before, t);
        }
    }
  }

  /** The part of `main` after login: build the filter over the loaded feed, filter it once, then
      monitor the scroll. */
  method RunSession(words: seq<string>, md5Hex: string -> string, feed: seq<PostElement>, lookupFails: bool,
                    r0: Option<int>, ticks: seq<Tick>)
    returns (filter: BlueskyFilter, passes: nat, raised: bool)
    ensures fresh(filter) && fresh(filter.page)
    ensures |filter.banwords| == |words| && forall i :: 0 <= i < |words| ==> filter.banwords[i] == Lower(words[i])
    ensures var m := Session(filter.banwords, md5Hex, feed, lookupFails, r0, ticks);
            m.processed == filter.processedPosts && m.items == filter.page.feedItems
            && m.passes == passes && m.raised == raised
  {
    var page := new Page(feed);
    filter := new BlueskyFilter(page, words, md5Hex);
    raised := filter.FilterPosts(lookupFails);
    if raised {
      passes := 1;
      return;
    }
    var more;
    more, raised := MonitorUserScroll(filter, r0, ticks);
    passes := more + 1;
  }
}
