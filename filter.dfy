/**
 The content filter of the Bluesky auto-moderator (`BlueskyFilter` in main.py).

 A rendered feed item is a `PostElement`. Every read the filter makes on the live
 element can succeed, fail because the element went stale, or fail otherwise; the
 outcome of each read is a field of the element, so one pass is a function of the
 feed and of the set of already processed post ids. `Pass` is that function; the
 class `BlueskyFilter` and its method `FilterPosts` are proved against it, and the
 lemmas below state what a pass promises.
 */
module Filter {
  import opened Strings

  /** The outcome of one read on a live element. `Fault` is any exception other than a
      stale-element one, e.g. the `IndexError` of `[0]` on an empty `find_elements` result. */
  datatype Read<T> = Got(value: T) | Stale | Fault

  /** One rendered feed item, with the outcome of each read the filter may make on it. */
  datatype PostElement = PostElement(
    displayed: Read<bool>,     // post.is_displayed()
    text: Read<string>,        // .text of the postText div; Fault when the div is absent
    authorHref: Read<string>,  // href of the 'View profile' link; Fault when there is none
    permalink: Read<string>,   // href of the link to the post; Fault when there is none
    detach: Read<()>,          // execute_script("arguments[0].remove();", post)
    removed: bool)             // the item has been removed from the page

  /** The length of a post id: the digest is cut to its first ten characters. */
  const IdLength: nat := 10

  /** `_get_post_id`: the id of a post is a prefix of the MD5 hex digest of its text.
      `md5Hex` stands for `hashlib.md5(bytes(t, "utf-8")).hexdigest()`. */
  function PostId(md5Hex: string -> string, text: string): (id: string)
    ensures |id| == if |md5Hex(text)| < IdLength then |md5Hex(text)| else IdLength
    ensures id == md5Hex(text)[..|id|]
  {
    var digest := md5Hex(text);
    if |digest| <= IdLength then digest else digest[..IdLength]
  }

  /** Whether some banword occurs in `lowered`. */
  function AnyOccurs(banwords: seq<string>, lowered: string): (r: bool)
    ensures r <==> exists i :: 0 <= i < |banwords| && Contains(lowered, banwords[i])
  {
    if banwords == [] then false
    else if Contains(lowered, banwords[0]) then true
    else
      var r := AnyOccurs(banwords[1..], lowered);
      assert forall i :: 1 <= i < |banwords| ==> banwords[i] == banwords[1..][i - 1];
      r
  }

  /** `_contains_banword`: some stored banword is a substring of the lower-cased text. */
  function ContainsBanword(banwords: seq<string>, text: string): (r: bool)
    ensures r <==> exists i :: 0 <= i < |banwords| && Contains(Lower(text), banwords[i])
  {
    AnyOccurs(banwords, Lower(text))
  }

  /** Matching ignores the case of the text: lower-casing it first changes nothing. */
  lemma {:induction false} MatchIgnoresCase(banwords: seq<string>, text: string)
    ensures ContainsBanword(banwords, Lower(text)) == ContainsBanword(banwords, text)
  {
    LowerIdempotent(text);
  }

  /** Only a banword without upper-case letters can ever match, which is why the constructor
      lower-cases them. */
  lemma {:induction false} MatchNeedsLowerBanword(banword: string, text: string)
    ensures ContainsBanword([banword], text) ==> forall i :: 0 <= i < |banword| ==> !IsUpper(banword[i])
  {
    if ContainsBanword([banword], text) {
      assert Contains(Lower(text), [banword][0]);
      var k: nat :| OccursAt(banword, Lower(text), k);
      forall i | 0 <= i < |banword| ensures !IsUpper(banword[i]) {
        assert banword[i] == Lower(text)[k + i];
      }
    }
  }

  /** The empty text matches exactly when an empty banword is stored. */
  lemma {:induction false} EmptyTextMatch(banwords: seq<string>)
    ensures ContainsBanword(banwords, "") <==> "" in banwords
  {
    assert Lower("") == "";
    forall b: string ensures Contains("", b) <==> b == "" {
      if b == "" {
        assert OccursAt(b, "", 0);
      }
    }
  }

  /** Matching is case-insensitive: "trump" matches "TRUMP news today". */
  lemma MatchUpperCaseText(text: string)
    requires text == "TRUMP news today"
    ensures ContainsBanword(["trump"], text)
  {
    var lowered := Lower(text);
    assert LowerChar('T') == 't' && LowerChar('R') == 'r' && LowerChar('U') == 'u'
        && LowerChar('M') == 'm' && LowerChar('P') == 'p';
    assert text[0] == 'T' && text[1] == 'R' && text[2] == 'U' && text[3] == 'M' && text[4] == 'P';
    assert lowered[..5] == "trump";
    assert OccursAt("trump", lowered, 0);
  }

  /** Matching is by substring, not by word: "trump" matches "subtrumpet". */
  lemma MatchInsideWord(text: string)
    requires text == "subtrumpet"
    ensures ContainsBanword(["trump"], text)
  {
    var lowered := Lower(text);
    assert lowered[3..8] == "trump";
    assert OccursAt("trump", lowered, 3);
  }

  /** The condition of the removal branch of `filter_posts`: `post_text and _contains_banword(post_text)`. */
  predicate Flagged(banwords: seq<string>, text: string) {
    text != "" && ContainsBanword(banwords, text)
  }

  /** `_get_post_text` returns a text, unless its lookup raises past it. */
  predicate TextReadable(post: PostElement) {
    !post.text.Fault?
  }

  /** The text `_get_post_text` returns: a stale read is caught and gives "". */
  function PostText(post: PostElement): (text: string)
    requires TextReadable(post)
    ensures post.text.Got? ==> text == post.text.value
    ensures post.text.Stale? ==> text == ""
  {
    if post.text.Got? then post.text.value else ""
  }

  /** `_get_post_author`: the profile handle is the href after its last '/'; a stale read gives ''. */
  function PostAuthor(post: PostElement): (author: string)
    requires !post.authorHref.Fault?
    ensures '/' !in author
    ensures post.authorHref.Got? ==>
              |author| <= |post.authorHref.value| &&
              author == post.authorHref.value[|post.authorHref.value| - |author|..]
    ensures post.authorHref.Got? && |author| < |post.authorHref.value| ==>
              post.authorHref.value[|post.authorHref.value| - |author| - 1] == '/'
    ensures post.authorHref.Stale? ==> author == ""
  {
    if post.authorHref.Got? then LastSegment(post.authorHref.value, '/') else ""
  }

  /** A profile link gives the handle after its last '/'. */
  lemma {:induction false} PostAuthorOfProfileLink(post: PostElement, profiles: string, handle: string)
    requires post.authorHref == Got(profiles + ['/'] + handle) && '/' !in handle
    ensures PostAuthor(post) == handle
  {
    LastSegmentAfterSep(profiles, '/', handle);
  }

  /** The state after one iteration of the loop of `filter_posts`. */
  datatype Visited = Visited(processed: set<string>, post: PostElement, raised: bool)

  /** The state after a pass, or after the part of a pass done when an exception escaped it. */
  datatype PassState = PassState(processed: set<string>, items: seq<PostElement>, raised: bool)

  /** One iteration of the loop of `filter_posts` over `post`, given the processed ids. */
  function Visit(banwords: seq<string>, md5Hex: string -> string, processed: set<string>, post: PostElement): (v: Visited)
    ensures processed <= v.processed
    ensures v.post == post || (!post.removed && v.post == post.(removed := true))
  {
    if post.removed then Visited(processed, post, false)      // not in the snapshot
    else match post.displayed
      case Fault => Visited(processed, post, true)
      case Stale => Visited(processed, post, false)
      case Got(shown) =>
        if !shown then Visited(processed, post, false)
        else if !TextReadable(post) then Visited(processed, post, true)
        else
          var text := PostText(post);
          var id := PostId(md5Hex, text);
          if id in processed then Visited(processed, post, false)
          else if Flagged(banwords, text) then
            if post.authorHref.Fault? || post.permalink.Fault? || post.detach.Fault? then
              Visited(processed, post, true)
            else if post.detach.Stale? then Visited(processed, post, false)
            else Visited(processed + {id}, post.(removed := true), false)
          else Visited(processed + {id}, post, false)
  }

  /** A pass of `filter_posts` over the snapshot `posts`, from the processed ids `processed`.
      When an iteration raises, the rest of the snapshot is left as it is. */
  function Pass(banwords: seq<string>, md5Hex: string -> string, processed: set<string>, posts: seq<PostElement>): (r: PassState)
    ensures |r.items| == |posts|
    ensures processed <= r.processed
    ensures forall k :: 0 <= k < |posts| ==>
              r.items[k] == posts[k] || (!posts[k].removed && r.items[k] == posts[k].(removed := true))
    decreases |posts|
  {
    if posts == [] then PassState(processed, [], false)
    else
      var before := Pass(banwords, md5Hex, processed, posts[..|posts| - 1]);
      var post := posts[|posts| - 1];
      if before.raised then PassState(before.processed, before.items + [post], true)
      else
        var v := Visit(banwords, md5Hex, before.processed, post);
        PassState(v.processed, before.items + [v.post], v.raised)
  }

  /** The page the driver shows: the rendered feed items, in document order. */
  class Page {
    var feedItems: seq<PostElement>

    constructor (items: seq<PostElement>)
      ensures feedItems == items
    {
      feedItems := items;
    }
  }

  /** `BlueskyFilter`: the banwords, lower-cased once, and the ids of the posts already processed. */
  class BlueskyFilter {
    const page: Page
    const banwords: seq<string>
    const md5Hex: string -> string
    var processedPosts: set<string>

    /** `__init__`: lower-cases the banwords and starts with no processed post. */
    constructor (page: Page, words: seq<string>, md5Hex: string -> string)
      ensures this.page == page && this.md5Hex == md5Hex
      ensures |banwords| == |words|
      ensures forall i :: 0 <= i < |words| ==> banwords[i] == Lower(words[i])
      ensures processedPosts == {}
    {
      this.page := page;
      this.md5Hex := md5Hex;
      this.banwords := seq(|words|, i requires 0 <= i < |words| => Lower(words[i]));
      processedPosts := {};
    }

    /** `filter_posts`: one pass over the feed items rendered when it starts. `lookupFails` tells
        that `find_elements` raises when it collects them; `raised` tells that an exception
        escaped the pass (it is re-raised to the caller). */
    method FilterPosts(lookupFails: bool) returns (raised: bool)
      modifies this, page
      ensures lookupFails ==> raised && processedPosts == old(processedPosts) && page.feedItems == old(page.feedItems)
      ensures !lookupFails ==> PassState(processedPosts, page.feedItems, raised)
                               == Pass(banwords, md5Hex, old(processedPosts), old(page.feedItems))
    {
      if lookupFails {
        return true;
      }
      var posts := page.feedItems;
      var i := 0;
      while i < |posts|
        invariant 0 <= i <= |posts| == |page.feedItems|
        invariant page.feedItems[i..] == posts[i..]
        invariant Pass(banwords, md5Hex, old(processedPosts), posts[..i])
                  == PassState(processedPosts, page.feedItems[..i], false)
      {
        ghost var items, processed := page.feedItems, processedPosts;
        raised := FilterPost(i);
        PassIteration(banwords, md5Hex, old(processedPosts), posts, i, processed, items,
                      processedPosts, page.feedItems, raised);
        if raised {
          return;
        }
        i := i + 1;
      }
      assert posts[..i] == posts && page.feedItems[..i] == page.feedItems;
      raised := false;
    }

    /** The body of the loop of `filter_posts` for the item at index `i`. */
    method FilterPost(i: nat) returns (raised: bool)
      requires i < |page.feedItems|
      modifies this, page
      ensures |page.feedItems| == |old(page.feedItems)|
      ensures page.feedItems == old(page.feedItems)[i := page.feedItems[i]]
      ensures Visited(processedPosts, page.feedItems[i], raised)
              == Visit(banwords, md5Hex, old(processedPosts), old(page.feedItems[i]))
    {
      var post := page.feedItems[i];
      raised := false;
      if post.removed {
        return;  // a removed item is not among the rendered items
      }
      match post.displayed {
        case Fault => raised := true; return;
        case Stale => return;
        case Got(shown) => if !shown { return; }
      }
      var postText: string;
      match post.text {
        case Got(s) => postText := s;
        case Stale => postText := "";
        case Fault => raised := true; return;
      }
      var postId := PostId(md5Hex, postText);
      if postId in processedPosts {
        return;
      }
      if postText != "" && ContainsBanword(banwords, postText) {
        if post.authorHref.Fault? || post.permalink.Fault? {
          raised := true;
          return;
        }
        match post.detach {
          case Fault => raised := true; return;
          case Stale => return;
          case Got(_) => page.feedItems := page.feedItems[i := post.(removed := true)];
        }
      }
      processedPosts := processedPosts + {postId};
    }
  }

  /** A pass over one more item is the pass over the others followed by an iteration over it. */
  lemma {:induction false} PassSnoc(banwords: seq<string>, md5Hex: string -> string, processed: set<string>,
                                    xs: seq<PostElement>, post: PostElement)
    ensures var before := Pass(banwords, md5Hex, processed, xs);
            var v := Visit(banwords, md5Hex, before.processed, post);
            Pass(banwords, md5Hex, processed, xs + [post])
            == if before.raised then PassState(before.processed, before.items + [post], true)
               else PassState(v.processed, before.items + [v.post], v.raised)
  {
    assert (xs + [post])[..|xs|] == xs;
  }

  /** What one iteration of the loop of `filter_posts` does to the pass over the snapshot `posts`. */
  lemma PassIteration(banwords: seq<string>, md5Hex: string -> string, processed0: set<string>,
                      posts: seq<PostElement>, i: nat,
                      processed: set<string>, items: seq<PostElement>,
                      processed': set<string>, items': seq<PostElement>, raised: bool)
    requires i < |posts| == |items| == |items'|
    requires items[i..] == posts[i..]
    requires Pass(banwords, md5Hex, processed0, posts[..i]) == PassState(processed, items[..i], false)
    requires items' == items[i := items'[i]]
    requires Visited(processed', items'[i], raised) == Visit(banwords, md5Hex, processed, items[i])
    ensures !raised ==> items'[i + 1..] == posts[i + 1..] &&
                        Pass(banwords, md5Hex, processed0, posts[..i + 1]) == PassState(processed', items'[..i + 1], false)
    ensures raised ==> Pass(banwords, md5Hex, processed0, posts) == PassState(processed', items', true)
  {
    var post := posts[i];
    assert items[i] == post;
    assert posts[..i + 1] == posts[..i] + [post];
    assert items'[..i + 1] == items[..i] + [items'[i]];
    PassSnoc(banwords, md5Hex, processed0, posts[..i], post);
    if raised {
      assert items'[i + 1..] == posts[i + 1..];
      assert items' == items'[..i + 1] + posts[i + 1..];
      assert posts == posts[..i + 1] + posts[i + 1..];
      PassRaisedRest(banwords, md5Hex, processed0, posts[..i + 1], posts[i + 1..]);
    }
  }

  /** Once an iteration has raised, the rest of the snapshot is left untouched. */
  lemma {:induction false} PassRaisedRest(banwords: seq<string>, md5Hex: string -> string, processed: set<string>,
                                          xs: seq<PostElement>, ys: seq<PostElement>)
    requires Pass(banwords, md5Hex, processed, xs).raised
    ensures var r := Pass(banwords, md5Hex, processed, xs);
            Pass(banwords, md5Hex, processed, xs + ys) == PassState(r.processed, r.items + ys, true)
    decreases |ys|
  {
    if ys != [] {
      var ys' := ys[..|ys| - 1];
      assert (xs + ys)[..|xs + ys| - 1] == xs + ys';
      PassRaisedRest(banwords, md5Hex, processed, xs, ys');
      assert Pass(banwords, md5Hex, processed, xs).items + ys' + [ys[|ys| - 1]]
          == Pass(banwords, md5Hex, processed, xs).items + ys;
    } else {
      assert xs + ys == xs;
    }
  }

  /** `post` is a rendered, displayed item whose text `_get_post_text` returns. */
  predicate ReadsText(post: PostElement) {
    !post.removed && post.displayed == Got(true) && TextReadable(post)
  }

  /** The loop of `filter_posts` reached `post` and derived the id `id` from its text. */
  predicate EvaluatedAs(md5Hex: string -> string, post: PostElement, id: string) {
    ReadsText(post) && PostId(md5Hex, PostText(post)) == id
  }

  /** No stale-element exception cuts the iteration over `post` short before its id is added. */
  predicate ReadCleanly(banwords: seq<string>, post: PostElement) {
    ReadsText(post) && !(Flagged(banwords, PostText(post)) && post.detach.Stale?)
  }

  /** The pass over a prefix of the snapshot is the start of the pass over all of it. */
  lemma {:induction false} PassPrefix(banwords: seq<string>, md5Hex: string -> string, processed: set<string>,
                                      xs: seq<PostElement>, m: nat)
    requires m <= |xs|
    ensures var r, p := Pass(banwords, md5Hex, processed, xs), Pass(banwords, md5Hex, processed, xs[..m]);
            p.items == r.items[..m] && p.processed <= r.processed && (!r.raised ==> !p.raised)
    decreases |xs| - m
  {
    if m < |xs| {
      var xs' := xs[..|xs| - 1];
      assert xs'[..m] == xs[..m];
      PassPrefix(banwords, md5Hex, processed, xs', m);
      var r' := Pass(banwords, md5Hex, processed, xs');
      assert Pass(banwords, md5Hex, processed, xs).items[..|xs'|] == r'.items;
    } else {
      assert xs[..m] == xs;
    }
  }

  /** What a pass does at index `k`: it first goes over the items before it, then runs an iteration
      over it unless an exception has already escaped. */
  lemma PassVisits(banwords: seq<string>, md5Hex: string -> string, processed: set<string>,
                   xs: seq<PostElement>, k: nat)
    requires k < |xs|
    ensures var before, after, r := Pass(banwords, md5Hex, processed, xs[..k]),
                                    Pass(banwords, md5Hex, processed, xs[..k + 1]),
                                    Pass(banwords, md5Hex, processed, xs);
            var v := Visit(banwords, md5Hex, before.processed, xs[k]);
            && after.processed <= r.processed && (after.raised ==> r.raised) && r.items[k] == after.items[k]
            && (before.raised ==> after.raised && after.items[k] == xs[k])
            && (!before.raised ==> after.items[k] == v.post && after.processed == v.processed && after.raised == v.raised)
  {
    var before, after := Pass(banwords, md5Hex, processed, xs[..k]), Pass(banwords, md5Hex, processed, xs[..k + 1]);
    assert after == if before.raised then PassState(before.processed, before.items + [xs[k]], true)
                    else var v := Visit(banwords, md5Hex, before.processed, xs[k]);
                         PassState(v.processed, before.items + [v.post], v.raised) by {
      assert xs[..k] + [xs[k]] == xs[..k + 1];
      PassSnoc(banwords, md5Hex, processed, xs[..k], xs[k]);
    }
    PassPrefix(banwords, md5Hex, processed, xs, k + 1);
  }

  /** An item the pass removes was flagged, and its id was neither processed before the
      iteration over it nor left out afterwards. */
  lemma RemovalAt(banwords: seq<string>, md5Hex: string -> string, processed: set<string>,
                  xs: seq<PostElement>, k: nat)
    requires k < |xs| && !xs[k].removed && Pass(banwords, md5Hex, processed, xs).items[k].removed
    ensures var before, post := Pass(banwords, md5Hex, processed, xs[..k]), xs[k];
            && !before.raised && ReadsText(post) && post.text.Got? && Flagged(banwords, post.text.value)
            && post.detach.Got?
            && PostId(md5Hex, post.text.value) !in before.processed
            && PostId(md5Hex, post.text.value) in Pass(banwords, md5Hex, processed, xs[..k + 1]).processed
  {
    PassVisits(banwords, md5Hex, processed, xs, k);
  }

  /** `filter_posts` changes an item only by removing it, and only when the item was displayed,
      its text was non-empty and contained a banword, its id was not processed when the pass
      began, and the removal went through; the id is then processed. */
  lemma {:induction false} RemovedOnlyIfFlagged(banwords: seq<string>, md5Hex: string -> string, processed: set<string>,
                                                xs: seq<PostElement>, k: nat)
    requires k < |xs|
    ensures var r, post := Pass(banwords, md5Hex, processed, xs), xs[k];
            r.items[k] != post ==>
              && r.items[k] == post.(removed := true) && !post.removed
              && post.displayed == Got(true) && post.text.Got? && Flagged(banwords, post.text.value)
              && post.detach.Got?
              && PostId(md5Hex, post.text.value) !in processed
              && PostId(md5Hex, post.text.value) in r.processed
  {
    var r := Pass(banwords, md5Hex, processed, xs);
    if r.items[k] != xs[k] {
      RemovalAt(banwords, md5Hex, processed, xs, k);
      PassPrefix(banwords, md5Hex, processed, xs, k);
      PassPrefix(banwords, md5Hex, processed, xs, k + 1);
    }
  }

  /** A post whose text contains no banword stays in the view. */
  lemma {:induction false} UnflaggedKept(banwords: seq<string>, md5Hex: string -> string, processed: set<string>,
                                         xs: seq<PostElement>, k: nat)
    requires k < |xs|
    requires !(xs[k].text.Got? && Flagged(banwords, xs[k].text.value))
    ensures Pass(banwords, md5Hex, processed, xs).items[k] == xs[k]
  {
    RemovedOnlyIfFlagged(banwords, md5Hex, processed, xs, k);
  }

  /** Whatever the banwords, a post whose text reads as empty is never removed. */
  lemma {:induction false} EmptyTextKept(banwords: seq<string>, md5Hex: string -> string, processed: set<string>,
                                         xs: seq<PostElement>, k: nat)
    requires k < |xs| && TextReadable(xs[k]) && PostText(xs[k]) == ""
    ensures Pass(banwords, md5Hex, processed, xs).items[k] == xs[k]
  {
    RemovedOnlyIfFlagged(banwords, md5Hex, processed, xs, k);
  }

  /** A post that is not displayed is left as it is. */
  lemma {:induction false} HiddenKept(banwords: seq<string>, md5Hex: string -> string, processed: set<string>,
                                      xs: seq<PostElement>, k: nat)
    requires k < |xs| && xs[k].displayed != Got(true)
    ensures Pass(banwords, md5Hex, processed, xs).items[k] == xs[k]
  {
    RemovedOnlyIfFlagged(banwords, md5Hex, processed, xs, k);
  }

  /** A post whose id was processed before the pass is left as it is. */
  lemma {:induction false} ProcessedKept(banwords: seq<string>, md5Hex: string -> string, processed: set<string>,
                                         xs: seq<PostElement>, k: nat)
    requires k < |xs| && TextReadable(xs[k]) && PostId(md5Hex, PostText(xs[k])) in processed
    ensures Pass(banwords, md5Hex, processed, xs).items[k] == xs[k]
  {
    RemovedOnlyIfFlagged(banwords, md5Hex, processed, xs, k);
  }

  /** Every id a pass adds was derived from the text of a displayed item of the snapshot. */
  lemma {:induction false} MarksOnlyEvaluated(banwords: seq<string>, md5Hex: string -> string,
                                              processed: set<string>, xs: seq<PostElement>)
    ensures forall id :: id in Pass(banwords, md5Hex, processed, xs).processed && id !in processed ==>
              exists k :: 0 <= k < |xs| && EvaluatedAs(md5Hex, xs[k], id)
    decreases |xs|
  {
    if xs != [] {
      var xs' := xs[..|xs| - 1];
      MarksOnlyEvaluated(banwords, md5Hex, processed, xs');
      forall id | id in Pass(banwords, md5Hex, processed, xs).processed && id !in processed
        ensures exists k :: 0 <= k < |xs| && EvaluatedAs(md5Hex, xs[k], id)
      {
        if id in Pass(banwords, md5Hex, processed, xs').processed {
          var k :| 0 <= k < |xs'| && EvaluatedAs(md5Hex, xs'[k], id);
          assert xs'[k] == xs[k];
        } else {
          assert EvaluatedAs(md5Hex, xs[|xs| - 1], id);
        }
      }
    }
  }

  /** Every displayed post read without a stale-element exception ends a completed pass with its
      id processed, whether it was removed or not. */
  lemma {:induction false} MarksCleanReads(banwords: seq<string>, md5Hex: string -> string, processed: set<string>,
                                           xs: seq<PostElement>, k: nat)
    requires k < |xs| && !Pass(banwords, md5Hex, processed, xs).raised
    requires ReadCleanly(banwords, xs[k])
    ensures PostId(md5Hex, PostText(xs[k])) in Pass(banwords, md5Hex, processed, xs).processed
  {
    PassVisits(banwords, md5Hex, processed, xs, k);
  }

  /** Conversely, a displayed post with a flagged text is removed by a completed pass, unless its
      id was processed when the pass began or an earlier item of the snapshot gave the same id. */
  lemma FlaggedRemoved(banwords: seq<string>, md5Hex: string -> string, processed: set<string>,
                       xs: seq<PostElement>, k: nat)
    requires k < |xs| && !Pass(banwords, md5Hex, processed, xs).raised
    requires ReadsText(xs[k]) && Flagged(banwords, PostText(xs[k])) && xs[k].detach.Got?
    requires PostId(md5Hex, PostText(xs[k])) !in processed
    requires forall j :: 0 <= j < k ==> !EvaluatedAs(md5Hex, xs[j], PostId(md5Hex, PostText(xs[k])))
    ensures Pass(banwords, md5Hex, processed, xs).items[k] == xs[k].(removed := true)
  {
    var id := PostId(md5Hex, PostText(xs[k]));
    assert id !in Pass(banwords, md5Hex, processed, xs[..k]).processed by {
      MarksOnlyEvaluated(banwords, md5Hex, processed, xs[..k]);
      assert forall j :: 0 <= j < k ==> xs[..k][j] == xs[j];
    }
    PassVisits(banwords, md5Hex, processed, xs, k);
  }

  /** Within one pass, two removed posts never share an id, so never share a text: at most one
      post per distinct text is removed. */
  lemma DistinctRemovals(banwords: seq<string>, md5Hex: string -> string, processed: set<string>,
                         xs: seq<PostElement>, i: nat, j: nat)
    requires i < j < |xs|
    requires !xs[i].removed && Pass(banwords, md5Hex, processed, xs).items[i].removed
    requires !xs[j].removed && Pass(banwords, md5Hex, processed, xs).items[j].removed
    ensures xs[i].text.Got? && xs[j].text.Got?
    ensures PostId(md5Hex, xs[i].text.value) != PostId(md5Hex, xs[j].text.value)
    ensures xs[i].text.value != xs[j].text.value
  {
    RemovalAt(banwords, md5Hex, processed, xs, i);
    RemovalAt(banwords, md5Hex, processed, xs, j);
    PassPrefix(banwords, md5Hex, processed, xs[..j], i + 1);
    assert xs[..j][..i + 1] == xs[..i + 1];
  }

  /** An iteration over `post` from `processed` changes nothing and raises nothing. */
  predicate Settled(banwords: seq<string>, md5Hex: string -> string, processed: set<string>, post: PostElement) {
    Visit(banwords, md5Hex, processed, post) == Visited(processed, post, false)
  }

  /** A settled item stays settled when more ids are processed. */
  lemma SettledMonotone(banwords: seq<string>, md5Hex: string -> string, processed: set<string>,
                        more: set<string>, post: PostElement)
    requires processed <= more && Settled(banwords, md5Hex, processed, post)
    ensures Settled(banwords, md5Hex, more, post)
  {
  }

  /** An iteration that does not raise leaves its item settled. */
  lemma VisitSettles(banwords: seq<string>, md5Hex: string -> string, processed: set<string>, post: PostElement)
    requires !Visit(banwords, md5Hex, processed, post).raised
    ensures var v := Visit(banwords, md5Hex, processed, post); Settled(banwords, md5Hex, v.processed, v.post)
  {
  }

  /** A pass over settled items changes nothing. */
  lemma {:induction false} PassOverSettled(banwords: seq<string>, md5Hex: string -> string,
                                           processed: set<string>, xs: seq<PostElement>)
    requires forall k :: 0 <= k < |xs| ==> Settled(banwords, md5Hex, processed, xs[k])
    ensures Pass(banwords, md5Hex, processed, xs) == PassState(processed, xs, false)
    decreases |xs|
  {
    if xs != [] {
      var xs' := xs[..|xs| - 1];
      PassOverSettled(banwords, md5Hex, processed, xs');
      assert xs' + [xs[|xs| - 1]] == xs;
    }
  }

  /** A completed pass leaves every item settled. */
  lemma {:induction false} PassSettles(banwords: seq<string>, md5Hex: string -> string,
                                       processed: set<string>, xs: seq<PostElement>)
    requires !Pass(banwords, md5Hex, processed, xs).raised
    ensures var r := Pass(banwords, md5Hex, processed, xs);
            forall k :: 0 <= k < |xs| ==> Settled(banwords, md5Hex, r.processed, r.items[k])
    decreases |xs|
  {
    if xs != [] {
      var xs' := xs[..|xs| - 1];
      var r', r := Pass(banwords, md5Hex, processed, xs'), Pass(banwords, md5Hex, processed, xs);
      PassSettles(banwords, md5Hex, processed, xs');
      VisitSettles(banwords, md5Hex, r'.processed, xs[|xs| - 1]);
      forall k | 0 <= k < |xs| ensures Settled(banwords, md5Hex, r.processed, r.items[k]) {
        if k < |xs'| {
          SettledMonotone(banwords, md5Hex, r'.processed, r.processed, r'.items[k]);
        }
      }
    }
  }

  /** `filter_posts` is idempotent: a second pass over the processed ids and the feed a completed
      pass left changes nothing, in particular removes nothing. */
  lemma PassIdempotent(banwords: seq<string>, md5Hex: string -> string, processed: set<string>, xs: seq<PostElement>)
    requires !Pass(banwords, md5Hex, processed, xs).raised
    ensures var r := Pass(banwords, md5Hex, processed, xs);
            Pass(banwords, md5Hex, r.processed, r.items) == PassState(r.processed, r.items, false)
  {
    var r := Pass(banwords, md5Hex, processed, xs);
    PassSettles(banwords, md5Hex, processed, xs);
    PassOverSettled(banwords, md5Hex, r.processed, r.items);
  }

  /** A displayed feed item all of whose reads succeed. */
  function ShownPost(text: string): PostElement {
    PostElement(Got(true), Got(text), Got("https://bsky.app/profile/someone"), Got("/profile/someone/post/1"), Got(()), false)
  }

  /** The end-to-end scenario: with the banword "Luis Rubiales", one pass over "Breaking: Luis
      Rubiales resigns", "Weather update" and "LUIS RUBIALES interview" removes the first and the
      third, keeps the second and processes the three ids (when the three digests differ). */
  lemma RubialesScenario(md5Hex: string -> string, word: string, t1: string, t2: string, t3: string)
    requires word == "Luis Rubiales"
    requires t1 == "Breaking: " + word + " resigns" && t2 == "Weather update" && t3 == "LUIS RUBIALES" + " interview"
    requires PostId(md5Hex, t1) != PostId(md5Hex, t2) && PostId(md5Hex, t2) != PostId(md5Hex, t3)
    requires PostId(md5Hex, t1) != PostId(md5Hex, t3)
    ensures var posts := [ShownPost(t1), ShownPost(t2), ShownPost(t3)];
            var r := Pass([Lower(word)], md5Hex, {}, posts);
            && !r.raised
            && r.items == [posts[0].(removed := true), posts[1], posts[2].(removed := true)]
            && r.processed == {PostId(md5Hex, t1), PostId(md5Hex, t2), PostId(md5Hex, t3)}
  {
    RubialesFlagsBreaking(word, t1);
    RubialesSparesWeather(word, t2);
    RubialesFlagsInterview(word, "LUIS RUBIALES", t3);
    ThreePostPass([Lower(word)], md5Hex, t1, t2, t3);
  }

  /** "Breaking: Luis Rubiales resigns" is flagged by the lower-cased banword. */
  lemma RubialesFlagsBreaking(word: string, t1: string)
    requires word == "Luis Rubiales" && t1 == "Breaking: " + word + " resigns"
    ensures Flagged([Lower(word)], t1)
  {
    LowerMixedRubiales(word);
    FlaggedInMiddle("luis rubiales", "Breaking: ", word, " resigns");
  }

  /** "LUIS RUBIALES interview" is flagged by the lower-cased banword. */
  lemma RubialesFlagsInterview(word: string, upper: string, t3: string)
    requires word == "Luis Rubiales" && upper == "LUIS RUBIALES" && t3 == upper + " interview"
    ensures Flagged([Lower(word)], t3)
  {
    LowerMixedRubiales(word);
    LowerCapsRubiales(upper);
    FlaggedInMiddle("luis rubiales", "", upper, " interview");
    assert "" + upper + " interview" == t3;
  }

  /** "Weather update" is not flagged by the lower-cased banword. */
  lemma RubialesSparesWeather(word: string, t2: string)
    requires word == "Luis Rubiales" && t2 == "Weather update"
    ensures !Flagged([Lower(word)], t2)
  {
    LowerMixedRubiales(word);
    NotFlaggedWhenNoStart("luis rubiales", t2);
  }

  /** A text of at most one character more than the banword is not flagged when neither of its
      first two characters lowers to the banword's first one. */
  lemma NotFlaggedWhenNoStart(banword: string, text: string)
    requires banword != "" && 0 < |text| <= |banword| + 1
    requires LowerChar(text[0]) != banword[0]
    requires |text| > 1 ==> LowerChar(text[1]) != banword[0]
    ensures !Flagged([banword], text)
  {
    var lowered := Lower(text);
    assert forall k: nat :: k + |banword| <= |lowered| ==> lowered[k..k + |banword|][0] == lowered[k];
  }

  /** A text made of a middle part that lowers to the banword is flagged. */
  lemma FlaggedInMiddle(banword: string, before: string, middle: string, after: string)
    requires Lower(middle) == banword != ""
    ensures Flagged([banword], before + middle + after)
  {
    LowerConcat(before, middle);
    LowerConcat(before + middle, after);
    var lowered := Lower(before + middle + after);
    assert lowered == Lower(before) + banword + Lower(after);
    assert lowered[|before|..|before| + |banword|] == banword;
    assert OccursAt(banword, lowered, |before|);
  }

  /** "Luis Rubiales" lowers to "luis rubiales". */
  lemma LowerMixedRubiales(word: string)
    requires word == "Luis Rubiales"
    ensures Lower(word) == "luis rubiales"
  {
    assert LowerChar('L') == 'l' && LowerChar('R') == 'r';
    assert forall i :: 0 <= i < |word| ==> LowerChar(word[i]) == "luis rubiales"[i];
    LowerByChars(word, "luis rubiales");
  }

  /** "LUIS RUBIALES" lowers to "luis rubiales". */
  lemma LowerCapsRubiales(word: string)
    requires word == "LUIS RUBIALES"
    ensures Lower(word) == "luis rubiales"
  {
    assert LowerChar('L') == 'l' && LowerChar('U') == 'u' && LowerChar('I') == 'i' && LowerChar('S') == 's';
    assert LowerChar('R') == 'r' && LowerChar('B') == 'b' && LowerChar('A') == 'a' && LowerChar('E') == 'e';
    assert forall i :: 0 <= i < |word| ==> LowerChar(word[i]) == "luis rubiales"[i];
    LowerByChars(word, "luis rubiales");
  }

  /** An iteration over a displayed post all of whose reads succeed and whose id is new marks
      the id and removes the post exactly when its text is flagged. */
  lemma VisitShown(banwords: seq<string>, md5Hex: string -> string, processed: set<string>, text: string)
    requires PostId(md5Hex, text) !in processed
    ensures Visit(banwords, md5Hex, processed, ShownPost(text))
            == Visited(processed + {PostId(md5Hex, text)}, ShownPost(text).(removed := Flagged(banwords, text)), false)
  {
  }

  /** A pass that has raised nothing so far goes on with an iteration over the next item. */
  lemma PassExtend(banwords: seq<string>, md5Hex: string -> string, processed: set<string>,
                   xs: seq<PostElement>, post: PostElement, before: PassState, v: Visited)
    requires Pass(banwords, md5Hex, processed, xs) == before && !before.raised
    requires Visit(banwords, md5Hex, before.processed, post) == v
    ensures Pass(banwords, md5Hex, processed, xs + [post]) == PassState(v.processed, before.items + [v.post], v.raised)
  {
    PassSnoc(banwords, md5Hex, processed, xs, post);
  }

  /** A pass over three displayed posts with distinct ids, of which the first and the third are
      flagged, from no processed id. */
  lemma ThreePostPass(banwords: seq<string>, md5Hex: string -> string, t1: string, t2: string, t3: string)
    requires Flagged(banwords, t1) && !Flagged(banwords, t2) && Flagged(banwords, t3)
    requires PostId(md5Hex, t1) != PostId(md5Hex, t2) && PostId(md5Hex, t2) != PostId(md5Hex, t3)
    requires PostId(md5Hex, t1) != PostId(md5Hex, t3)
    ensures var posts := [ShownPost(t1), ShownPost(t2), ShownPost(t3)];
            var r := Pass(banwords, md5Hex, {}, posts);
            && !r.raised
            && r.items == [posts[0].(removed := true), posts[1], posts[2].(removed := true)]
            && r.processed == {PostId(md5Hex, t1), PostId(md5Hex, t2), PostId(md5Hex, t3)}
  {
    var p1, p2, p3 := ShownPost(t1), ShownPost(t2), ShownPost(t3);
    var id1, id2, id3 := PostId(md5Hex, t1), PostId(md5Hex, t2), PostId(md5Hex, t3);
    var q1, q3 := p1.(removed := true), p3.(removed := true);
    var s0, s1, s2 := PassState({}, [], false), PassState({id1}, [q1], false), PassState({id1, id2}, [q1, p2], false);
    assert Pass(banwords, md5Hex, {}, [p1]) == s1 by {
      VisitShown(banwords, md5Hex, {}, t1);
      PassExtend(banwords, md5Hex, {}, [], p1, s0, Visited({id1}, q1, false));
      assert [] + [p1] == [p1];
    }
    assert Pass(banwords, md5Hex, {}, [p1, p2]) == s2 by {
      VisitShown(banwords, md5Hex, {id1}, t2);
      PassExtend(banwords, md5Hex, {}, [p1], p2, s1, Visited({id1, id2}, p2, false));
      assert [p1] + [p2] == [p1, p2];
    }
    VisitShown(banwords, md5Hex, {id1, id2}, t3);
    PassExtend(banwords, md5Hex, {}, [p1, p2], p3, s2, Visited({id1, id2, id3}, q3, false));
    assert [p1, p2] + [p3] == [p1, p2, p3];
  }
}
