/**
 The block-list tool of the Bluesky auto-moderator (blocklist.py): turning an account reference
 into the handle that gets resolved, and finding a list of the signed-in account by its name.

 The ATProto calls are parameters: a `Fetch` is the outcome of one call, which either returns a
 value or raises.
 */
module Blocklist {
  import opened Wrappers
  import opened Strings

  /** One list of the signed-in account, as `app.bsky.graph.get_lists` reports it. */
  datatype UserList = UserList(name: string, uri: string)

  /** One member of a list, as `app.bsky.graph.get_list` reports it: the subject's handle. */
  datatype ListItem = ListItem(subjectHandle: string)

  /** The outcome of a network call: its result, or an exception. */
  datatype Fetch<T> = Fetched(value: T) | Failed

  /** The record `get_or_create_block_list` creates (its `createdAt` stamp is not modelled). */
  datatype ListRecord = ListRecord(name: string, purpose: string, description: string)

  /** The data of a `com.atproto.repo.create_record` call: the repository, the collection and the record. */
  datatype CreateRequest = CreateRequest(repo: string, collection: string, record: ListRecord)

  const BlockListName: string := "block list"
  const ModListPurpose: string := "app.bsky.graph.defs#modlist"
  const BlockListDescription: string := "Liste de blocage automatique"
  const ListCollection: string := "app.bsky.graph.list"

  /** The moderation list `get_or_create_block_list` creates when there is none. */
  const BlockListRecord: ListRecord := ListRecord(BlockListName, ModListPurpose, BlockListDescription)

  /** The index of the first list called `name`, if any. */
  function FirstNamed(lists: seq<UserList>, name: string): (r: Option<nat>)
    ensures r.None? <==> forall i :: 0 <= i < |lists| ==> lists[i].name != name
    ensures r.Some? ==> r.value < |lists| && lists[r.value].name == name
    ensures r.Some? ==> forall j :: 0 <= j < r.value ==> lists[j].name != name
    decreases |lists|
  {
    if lists == [] then None
    else if lists[0].name == name then Some(0)
    else
      var rest := FirstNamed(lists[1..], name);
      assert forall i :: 1 <= i < |lists| ==> lists[i] == lists[1..][i - 1];
      if rest.None? then None else Some(rest.value + 1)
  }

  /** `get_or_create_block_list` for the signed-in account `me` (its DID): the uri of the first
      list called "block list"; when there is none, the uri of a moderation list created for it in
      the account's repository. `created` is the request sent, if any. */
  method GetOrCreateBlockList(me: string, lists: Fetch<seq<UserList>>, create: CreateRequest -> Fetch<string>)
    returns (uri: Fetch<string>, created: Option<CreateRequest>)
    ensures lists.Failed? ==> uri.Failed? && created.None?
    ensures lists.Fetched? && FirstNamed(lists.value, BlockListName).Some? ==>
              uri == Fetched(lists.value[FirstNamed(lists.value, BlockListName).value].uri) && created.None?
    ensures lists.Fetched? && FirstNamed(lists.value, BlockListName).None? ==>
              created == Some(CreateRequest(me, ListCollection, BlockListRecord))
              && uri == create(CreateRequest(me, ListCollection, BlockListRecord))
  {
    created := None;
    match lists {
      case Failed => uri := Failed; return;
      case Fetched(ls) =>
        for i := 0 to |ls|
          invariant forall j :: 0 <= j < i ==> ls[j].name != BlockListName
        {
          if ls[i].name == BlockListName {
            uri := Fetched(ls[i].uri);
            return;
          }
        }
    }
    var request := CreateRequest(me, ListCollection, BlockListRecord);
    created := Some(request);
    uri := create(request);
  }

  /** `item.subject.handle` for each item, in order. */
  function Handles(items: seq<ListItem>): (handles: seq<string>)
    ensures |handles| == |items|
    ensures forall k :: 0 <= k < |items| ==> handles[k] == items[k].subjectHandle
  {
    seq(|items|, k requires 0 <= k < |items| => items[k].subjectHandle)
  }

  /** `get_users_from_list`: the handles of the members of the first list called `listName`, in
      item order. It gives `[]` when a call raises, when no list has that name, and when the first
      such list has an empty uri (the `not list_uri` test). */
  method GetUsersFromList(lists: Fetch<seq<UserList>>, listName: string, members: string -> Fetch<seq<ListItem>>)
    returns (users: seq<string>)
    ensures lists.Failed? ==> users == []
    ensures lists.Fetched? && FirstNamed(lists.value, listName).None? ==> users == []
    ensures lists.Fetched? && FirstNamed(lists.value, listName).Some? ==>
              var uri := lists.value[FirstNamed(lists.value, listName).value].uri;
              users == if uri == "" || members(uri).Failed? then [] else Handles(members(uri).value)
  {
    if lists.Failed? {
      return [];
    }
    var userLists := lists.value;
    var listUri: Option<string> := None;
    var i := 0;
    while i < |userLists|
      invariant 0 <= i <= |userLists|
      invariant listUri.None?
      invariant forall j :: 0 <= j < i ==> userLists[j].name != listName
    {
      if userLists[i].name == listName {
        listUri := Some(userLists[i].uri);
        break;
      }
      i := i + 1;
    }
    if listUri.None? {
      return [];
    }
    assert FirstNamed(userLists, listName) == Some(i);
    if listUri.value == "" {
      return [];
    }
    match members(listUri.value) {
      case Failed => users := [];
      case Fetched(items) => users := Handles(items);
    }
  }

  /** The reference with its url prefix or its leading '@'s taken off, as `resolve_account_to_did`
      does before stripping whitespace. */
  function Unprefixed(account: string): (h: string)
    ensures |h| <= |account| && h == account[|account| - |h|..]
    ensures StartsWith(account, "http") ==> '/' !in h && (|h| < |account| ==> account[|account| - |h| - 1] == '/')
    ensures !StartsWith(account, "http") ==>
              (forall i :: 0 <= i < |account| - |h| ==> account[i] == '@') && (h == [] || h[0] != '@')
  {
    if StartsWith(account, "http") then LastSegment(account, '/') else LStrip(account, {'@'})
  }

  /** The handle `resolve_account_to_did` resolves: the text after the last '/' of a reference
      starting with "http", the reference without its leading '@'s otherwise, then without
      surrounding whitespace. */
  function HandleOf(account: string): (handle: string)
    ensures Trimmed(handle, Whitespace)
    ensures StartsWith(account, "http") ==> '/' !in handle
  {
    Strip(Unprefixed(account), Whitespace)
  }

  /** A profile url gives the handle after its last '/'. */
  lemma HandleOfProfileUrl(url: string, handle: string)
    requires StartsWith(url, "http") && '/' !in handle
    requires Trimmed(handle, Whitespace)
    ensures HandleOf(url + ['/'] + handle) == handle
  {
    var account := url + ['/'] + handle;
    assert StartsWith(account, "http") by {
      assert account[..|"http"|] == url[..|"http"|];
    }
    assert LastSegment(account, '/') == handle by {
      LastSegmentAfterSep(url, '/', handle);
    }
    assert Strip(handle, Whitespace) == handle by {
      assert [] + handle + [] == handle;
      StripPadding([], handle, [], Whitespace);
    }
  }

  /** A mention loses all its leading '@'s, however many, then its surrounding whitespace. */
  lemma HandleOfMention(n: nat, pre: string, handle: string, post: string)
    requires n > 0
    requires forall i :: 0 <= i < |pre| ==> pre[i] in Whitespace
    requires forall i :: 0 <= i < |post| ==> post[i] in Whitespace
    requires Trimmed(handle, Whitespace) && (handle == [] || handle[0] != '@')
    ensures HandleOf(seq(n, _ => '@') + pre + handle + post) == handle
  {
    var ats: string := seq(n, _ => '@');
    var rest := pre + handle + post;
    var account := ats + pre + handle + post;
    assert account == ats + rest;
    assert account[0] == '@';
    assert !StartsWith(account, "http") by {
      assert "http"[0] == 'h';
    }
    assert rest == [] || rest[0] != '@' by {
      if pre != [] {
        assert rest[0] == pre[0];
      } else if handle != [] {
        assert rest[0] == handle[0];
      } else {
        assert rest == post;
      }
    }
    LStripPrefix(ats, rest, {'@'});
    StripPadding(pre, handle, post, Whitespace);
  }

  /** A reference that is no url and does not start with '@' is kept as it is before stripping. */
  lemma UnprefixedPlain(account: string)
    requires !StartsWith(account, "http") && (account == [] || account[0] != '@')
    ensures Unprefixed(account) == account
  {
    assert LStrip(account, {'@'}) == account;
  }

  /** Leading whitespace stops the '@'s from being stripped: " @alice" gives "@alice", since the
      whitespace is stripped only after the '@'s. */
  lemma HandleOfSpacedMention(space: char, handle: string)
    requires space in Whitespace
    requires handle == [] || handle[|handle| - 1] !in Whitespace
    ensures HandleOf([space, '@'] + handle) == ['@'] + handle
  {
    var account := [space, '@'] + handle;
    var core := ['@'] + handle;
    assert space != '@' && space != 'h' && '@' !in Whitespace;
    assert !StartsWith(account, "http") by {
      assert account[0] == space && "http"[0] == 'h';
    }
    UnprefixedPlain(account);
    assert core[|core| - 1] !in Whitespace by {
      if handle == [] {
        assert core == ['@'];
      } else {
        assert core[|core| - 1] == handle[|handle| - 1];
      }
    }
    assert account == [space] + core + [];
    StripPadding([space], core, [], Whitespace);
  }
}
