/** The responses of an asynchronous listing, and that their boundaries do not matter. */
module Batches {
  import opened Basics
  import opened FileSystem
  import opened LinkChains
  import opened PathBuffers
  import opened Listing

  /** A response is a flat array: a type code and an argument for each item. */
  datatype Slot = Code(code: nat) | Path(path: string) | Nothing | Failure(path: string)

  function Encode(item: Item): seq<Slot> {
    match item
    case FileItem(p) => [Code(0), Path(p)]
    case DirItem(p) => [Code(1), Path(p)]
    case LinkItem(p) => [Code(2), Path(p)]
    case ErrorItem(p) => [Code(3), Failure(p)]
    case DoneItem => [Code(4), Nothing]
  }

  function EncodeAll(items: seq<Item>): seq<Slot> {
    if items == [] then [] else Encode(items[0]) + EncodeAll(items[1..])
  }

  lemma {:induction false} EncodeAppend(a: seq<Item>, b: seq<Item>)
    ensures EncodeAll(a + b) == EncodeAll(a) + EncodeAll(b)
  {
    if a == [] {
      assert a + b == b;
    } else {
      assert (a + b)[1..] == a[1..] + b;
      EncodeAppend(a[1..], b);
    }
  }

  /** The code for the end is sent exactly with the marker for the end. */
  lemma {:induction false} EndEncoded(items: seq<Item>)
    ensures Code(4) in EncodeAll(items) <==> DoneItem in items
  {
    if items != [] { EndEncoded(items[1..]); }
  }

  lemma EndMarked(items: seq<Item>)
    requires DoneItem !in items
    ensures var slots := EncodeAll(items + [DoneItem]);
      |slots| >= 2 && slots[|slots| - 2..] == [Code(4), Nothing] && Code(4) !in slots[..|slots| - 2]
  {
    EncodeAppend(items, [DoneItem]);
    EndEncoded(items);
    assert EncodeAll([DoneItem]) == [Code(4), Nothing];
    assert EncodeAll(items + [DoneItem])[..|EncodeAll(items)|] == EncodeAll(items);
  }

  // ----- What the client makes of the responses -----

  const LIST_FILE := 0
  const LIST_DIRECTORY := 1
  const LIST_LINK := 2
  const LIST_ERROR := 3
  const LIST_DONE := 4

  /** The text that an argument carries. */
  function Text(arg: Slot): string {
    if arg.Path? || arg.Failure? then arg.path else ""
  }

  /** What the client adds to its stream for two slots; an unknown type is passed over. */
  function Received(code: nat, arg: Slot): seq<Item> {
    if code == LIST_FILE then [FileItem(Text(arg))]
    else if code == LIST_DIRECTORY then [DirItem(Text(arg))]
    else if code == LIST_LINK then [LinkItem(Text(arg))]
    else if code == LIST_ERROR then [ErrorItem(Text(arg))]
    else []
  }

  /** What the client reads in responses, up to the end if it comes. */
  function Read(slots: seq<Slot>): (seq<Item>, bool)
    decreases |slots|
  {
    if |slots| < 2 || !slots[0].Code? then ([], false)
    else if slots[0].code == LIST_DONE then ([], true)
    else
      var (items, done) := Read(slots[2..]);
      (Received(slots[0].code, slots[1]) + items, done)
  }

  lemma ReadCons(x: Item, slots: seq<Slot>)
    requires x != DoneItem
    ensures Read(Encode(x) + slots) == ([x] + Read(slots).0, Read(slots).1)
  {
    assert (Encode(x) + slots)[2..] == slots;
  }

  /** The client reads what was sent: the items in order, and the end exactly when it was sent. */
  lemma {:induction false} ReadBack(items: seq<Item>)
    requires DoneItem !in items
    ensures Read(EncodeAll(items)) == (items, false) && Read(EncodeAll(items + [DoneItem])) == (items, true)
  {
    if items == [] {
      assert items + [DoneItem] == [DoneItem] && EncodeAll([DoneItem]) == Encode(DoneItem);
    } else {
      var x, rest := items[0], items[1..];
      ReadBack(rest);
      assert (items + [DoneItem])[1..] == rest + [DoneItem] && items == [x] + rest;
      ReadCons(x, EncodeAll(rest));
      ReadCons(x, EncodeAll(rest + [DoneItem]));
    }
  }

  /** The loop over one response. */
  method ReadResponse(result: seq<Slot>) returns (items: seq<Item>, canceled: bool)
    requires |result| % 2 == 0 && forall i :: 0 <= i < |result| && i % 2 == 0 ==> result[i].Code?
    ensures (items, canceled) == Read(result)
  {
    items, canceled := [], false;
    var i := 0;
    assert result[0..] == result && [] + Read(result).0 == Read(result).0;
    while i < |result|
      invariant 0 <= i <= |result| && i % 2 == 0 && !canceled
      invariant Read(result) == (items + Read(result[i..]).0, Read(result[i..]).1)
    {
      assert result[i..][0] == result[i] && result[i..][1] == result[i + 1] && result[i..][2..] == result[i + 2..];
      if result[i].code == LIST_DONE {
        assert items + [] == items;
        return items, true;
      }
      ghost var rest := Read(result[i + 2..]).0;
      var more := Received(result[i].code, result[i + 1]);
      assert items + (more + rest) == items + more + rest;
      items := items + more;
      i := i + 2;
    }
    assert items + [] == items;
  }

  lemma Append(sent: seq<Item>, step: seq<Item>, pending: seq<Item>) returns (all: seq<Item>)
    ensures EncodeAll(all) == EncodeAll(sent) + EncodeAll(step) && all + pending == sent + (step + pending)
    ensures |all| == |sent| + |step|
  {
    EncodeAppend(sent, step);
    all := sent + step;
  }

  /** All that is still to be sent: what the stack reports and the marker for the end. */
  ghost function Pending(rests: seq<seq<Item>>): seq<Item> {
    if rests == [] then [] else Flat(rests) + [DoneItem]
  }

  /** A reported item is taken off the front of what is pending. */
  lemma PendingAfterItem(a: seq<seq<Item>>, b: seq<seq<Item>>, x: seq<Item>)
    requires |a| == |b| > 0 && a[..|a| - 1] == b[..|a| - 1] && a[|a| - 1] == x + b[|a| - 1]
    ensures Pending(a) == x + Pending(b)
  {
    var outer := Flat(a[..|a| - 1]);
    assert (x + b[|a| - 1]) + outer + [DoneItem] == x + (b[|a| - 1] + outer + [DoneItem]);
  }

  /** A subdirectory that is entered comes next, before the rest of the directory it is in. */
  lemma PendingAfterPush(a: seq<seq<Item>>, b: seq<seq<Item>>, x: seq<Item>, below: seq<Item>)
    requires |a| == |b| > 0 && a[..|a| - 1] == b[..|a| - 1] && a[|a| - 1] == x + below + b[|a| - 1]
    ensures Pending(a) == x + Pending(b + [below])
  {
    var outer := Flat(a[..|a| - 1]);
    assert (b + [below])[..|b|] == b && Flat(b + [below]) == below + Flat(b);
    assert (x + below + b[|a| - 1]) + outer + [DoneItem] == x + (below + (b[|a| - 1] + outer) + [DoneItem]);
  }

  lemma PendingAfterPop(a: seq<seq<Item>>, b: seq<seq<Item>>)
    requires |a| == |b| > 0 && a[..|a| - 1] == b[..|a| - 1] && a[|a| - 1] == []
    ensures Pending(a) == (if |a| == 1 then [DoneItem] else []) + Pending(b[..|b| - 1])
  {
    assert a[|a| - 1] + Flat(a[..|a| - 1]) == Flat(b[..|b| - 1]);
  }

  /** What one step sends: the item reported, or the marker when the last entry is popped. */
  ghost function News(t: ListType, path: string, over: bool): seq<Item> {
    if t.ListDone? then (if over then [DoneItem] else []) else ItemFor(t, path)
  }

  lemma PendingAfter(a: seq<seq<Item>>, b: seq<seq<Item>>, t: ListType, path: string, recursive: bool, inside: Walk)
    requires |a| == |b| > 0 && a[..|a| - 1] == b[..|a| - 1] && (t.ListDone? ==> b[|b| - 1] == [])
    requires t.ListDirectory? && recursive ==> inside.stack != []
    requires a[|a| - 1] ==
      ItemFor(t, path) + (if t.ListDirectory? && recursive then inside.TopRest() else []) + b[|b| - 1]
    ensures var c := Settled(b, t.ListDone?, t.ListDirectory? && recursive, inside);
      Pending(a) == News(t, path, c == []) + Pending(c)
  {
    if t.ListDone? {
      PendingAfterPop(a, b);
    } else if t.ListDirectory? && recursive {
      PendingAfterPush(a, b, ItemFor(t, path), inside.TopRest());
    } else {
      assert a[|a| - 1] == ItemFor(t, path) + b[|a| - 1];
      PendingAfterItem(a, b, ItemFor(t, path));
    }
  }

  /** The same for a call of Next, `text` being the path that the buffer shows afterwards. */
  lemma PendingAfterNext(w: Walk, w': Walk, t: ListType, path: string, text: string, inside: Walk)
    requires OnlyTopChanged(w, w') && Reported(w, w', t, path, inside) && (t.ListDone? || text == Cut(path))
    ensures t.ListDirectory? && w.task.opt.recursive ==> inside.stack != []
    ensures var c := Settled(w'.rests, t.ListDone?, t.ListDirectory? && w.task.opt.recursive, inside);
      Pending(w.rests) == News(t, text, c == []) + Pending(c)
  {
    PendingAfter(w.rests, w'.rests, t, text, w.task.opt.recursive, inside);
  }

  /** What Directory::List sends for a start path that does not fit the path buffer. */
  const REFUSAL := [ErrorItem("Invalid path"), DoneItem]

  /** AsyncDirectoryListing: the listing and the response being filled. */
  class AsyncDirectoryListing {
    const listing: DirectoryListing
    var response: array<Slot>
    var index: nat
    var length: nat
    /** What is still to be sent. */
    ghost var pending: seq<Item>

    ghost predicate Valid()
      reads this, response, listing, listing.buffer, listing.buffer.data
    {
      && (forall n :: ListingOk(n)) && (pending == [] <==> listing.stack == [])
      && ResponseOk() && !listing.error
    }

    /** The response is sound; the listing need not be. */
    ghost predicate ResponseOk()
      reads this
    {
      length == response.Length && length % 2 == 0 && index % 2 == 0 && index <= length
    }

    /**
     The listing is sound and has exactly `pending` to report, seen from a stack of depth `n`; a name for
     all that the loops need not look into.
     */
    ghost predicate ListingOk(n: int)
      reads this`pending, listing, listing.buffer, listing.buffer.data
    {
      n == |listing.stack| ==> listing.Valid() && pending == Pending(listing.walk.rests)
    }

    constructor (task: Task)
      requires task.Ok() && Listable(task)
      ensures ResponseOk() && listing.stack != [] && listing.links == map[] && listing.task == task
      ensures listing.error <==> |task.path| > PATH_MAX
      ensures !listing.error ==>
        Valid() && pending == ListDir(task.fs, task.opt, task.path, task.root, [], true) + [DoneItem]
      ensures fresh(listing) && fresh(listing.buffer) && fresh(listing.buffer.data) && fresh(response)
    {
      listing := new DirectoryListing(task);
      response := new Slot[0];
      index, length := 0, 0;
      new;
      pending := Pending(listing.walk.rests);
      var first := ListDir(task.fs, task.opt, task.path, task.root, [], true);
      assert Flat([]) == [] && [first][..0] == [] && first + [] == first;
    }

    method SetArray(newArray: array<Slot>)
      requires ResponseOk() && newArray.Length % 2 == 0
      modifies this`response, this`index, this`length
      ensures ResponseOk() && response == newArray && index == 0 && length == newArray.Length
    {
      response, index, length := newArray, 0, newArray.Length;
    }

    /** Two slots of the response; `more` is whether there is room for another item. */
    method AddToResponse(ghost item: Item, code: Slot, arg: Slot) returns (more: bool)
      requires ResponseOk() && index < length && Encode(item) == [code, arg]
      modifies this`index, response
      ensures ResponseOk() && index == old(index) + 2 && response[..index] == old(response[..index]) + Encode(item)
      ensures more <==> index < length
    {
      response[index] := code;
      response[index + 1] := arg;
      index := index + 2;
      more := index < length;
    }

    /** With the last entry the last link cell has been freed. */
    lemma Emptied()
      requires Valid()
      ensures listing.stack == [] ==> listing.links == map[]
    {
      assert ListingOk(|listing.stack|);
      assert listing.walk.LinksOk(|listing.stack|);
    }

    /** Everything this object may change. */
    ghost function Repr(): set<object>
      reads this
    {
      {this, listing, listing.buffer, listing.buffer.data}
    }

    /** One step of the walk: what it reports is taken off what is left to report. */
    method Step() returns (t: ListType, text: string)
      requires listing.Valid() && listing.stack != []
      modifies listing, listing.buffer, listing.buffer.data
      ensures listing.Valid()
      ensures old(Pending(listing.walk.rests)) == News(t, text, listing.stack == []) + Pending(listing.walk.rests)
      ensures t.ListDone? ==> |listing.stack| < |old(listing.stack)|
      ensures !t.ListDone? ==> listing.stack != []
    {
      ghost var path, inside;
      t, path, inside := listing.Next();
      text := listing.CurrentPath(path);
      PendingAfterNext(old(listing.walk), listing.walk, t, path, text, inside);
      listing.Settle(t, path, inside);
    }

    method Take() returns (t: ListType, text: string)
      requires Valid() && listing.stack != []
      modifies this`pending, listing, listing.buffer, listing.buffer.data
      ensures Valid() && old(pending) == News(t, text, listing.stack == []) + pending
      ensures t.ListDone? ==> |listing.stack| < |old(listing.stack)|
      ensures !t.ListDone? ==> listing.stack != []
    {
      assert ListingOk(|listing.stack|);
      t, text := Step();
      pending := Pending(listing.walk.rests);
      assert |listing.walk.rests| == |listing.stack|;
    }

    /** ListNext: `news` are the items that one step puts into the response, one at most. */
    method ListNext() returns (more: bool, ghost news: seq<Item>)
      requires Valid() && index < length && listing.stack != []
      modifies Repr(), response
      ensures Valid() && response == old(response) && length == old(length)
      ensures old(pending) == news + pending
      ensures response[..index] == old(response[..index]) + EncodeAll(news)
      ensures more <==> index < length && listing.stack != []
      ensures |news| < 1 ==> |listing.stack| < |old(listing.stack)|
    {
      var t, text := Take();
      news := News(t, text, listing.stack == []);
      if t.ListDone? {
        if listing.stack != [] {
          return true, news;
        }
        var _ := AddToResponse(DoneItem, Code(4), Nothing);
        return false, news;
      }
      var code := Code(match t case ListFile => 0 case ListDirectory => 1 case ListLink => 2 case _ => 3);
      more := AddToResponse(news[0], code, if t.ListError? then Failure(text) else Path(text));
    }

    /** The listing could not be started, and List reports an error and the end. */
    ghost predicate Refusing()
      reads this, listing
    {
      ResponseOk() && listing.error
    }

    /** Directory::List: until the response is full or the walk is over. */
    method List() returns (ghost news: seq<Item>)
      requires Refusing() || (Valid() && listing.stack != [])
      requires index == 0 < length && (listing.error ==> length >= 4)
      modifies Repr(), response
      ensures ResponseOk() && response == old(response) && length == old(length)
      ensures response[..index] == EncodeAll(news)
      ensures old(listing.error) ==>
        Refusing() && news == REFUSAL && listing.stack == old(listing.stack) && listing.links == old(listing.links)
      ensures !old(listing.error) ==>
        Valid() && old(pending) == news + pending && (listing.stack == [] || index == length)
    {
      news := [];
      if listing.error {
        var _ := AddToResponse(REFUSAL[0], Code(3), Failure("Invalid path"));
        var _ := AddToResponse(DoneItem, Code(4), Nothing);
        news := REFUSAL;
        return;
      }
      var more := true;
      while more
        invariant Valid() && response == old(response) && length == old(length)
        invariant old(pending) == news + pending
        invariant response[..index] == EncodeAll(news)
        invariant more <==> index < length && listing.stack != []
        decreases |pending|, |listing.stack|, more
      {
        ghost var step;
        more, step := ListNext();
        news := Append(news, step, pending);
      }
    }

    /** ListNextRequest: the next response of at most `size` slots, empty when the listing is over. */
    method ListNextRequest(size: nat) returns (slots: seq<Slot>, ghost news: seq<Item>)
      requires Valid() && size > 0 && size % 2 == 0
      modifies Repr(), response
      ensures Valid() && fresh({response} - {old(response)})
      ensures slots == EncodeAll(news) && |slots| <= size
      ensures old(pending) == news + pending
      ensures old(listing.stack) != [] ==> news != []
      ensures |slots| < size ==> listing.stack == []
    {
      news := [];
      if listing.stack == [] {
        return [], news;
      }
      var slotArray := new Slot[size](_ => Nothing);
      SetArray(slotArray);
      news := List();
      slots := response[..index];
    }
  }

  /** The answer to a request to start: an error with the path, or the listing to ask for responses. */
  datatype Started = Refused(error: Slot) | Handle(listing: AsyncDirectoryListing)

  /** ListStartRequest: a start path that is too long is refused here, and never listed. */
  method ListStartRequest(task: Task) returns (r: Started)
    requires task.Ok() && Listable(task)
    ensures |task.path| > PATH_MAX ==> r == Refused(Failure(task.path))
    ensures |task.path| <= PATH_MAX ==>
      && r.Handle? && fresh(r.listing) && fresh(r.listing.Repr()) && fresh(r.listing.response)
      && r.listing.Valid() && r.listing.listing.stack != [] && r.listing.listing.task == task
      && r.listing.pending == ListDir(task.fs, task.opt, task.path, task.root, [], true) + [DoneItem]
  {
    var async := new AsyncDirectoryListing(task);
    r := if async.listing.error then Refused(Failure(task.path)) else Handle(async);
  }

  /** All that a client receives: the refusal, or the responses one after the other. */
  datatype Answer = StartError(error: Slot) | Responses(slots: seq<Slot>)

  /**
   Whatever the even batch size, the responses together are the recursive listing and the marker that
   it is done, which comes at the end and nowhere else; and with the last entry the last link cell has
   been freed. A start path is refused exactly when it is longer than the path buffer.
   */
  method ListInBatches(task: Task, size: nat) returns (r: Answer, leaked: Heap)
    requires task.Ok() && Listable(task) && size > 0 && size % 2 == 0
    ensures r == if |task.path| > PATH_MAX then StartError(Failure(task.path))
                 else Responses(EncodeAll(ListDir(task.fs, task.opt, task.path, task.root, [], true) + [DoneItem]))
    ensures r.Responses? ==> Read(r.slots) == (ListDir(task.fs, task.opt, task.path, task.root, [], true), true)
    ensures r.Responses? ==>
      var n := |r.slots| - 2; n >= 0 && r.slots[n..] == [Code(4), Nothing] && Code(4) !in r.slots[..n]
    ensures leaked == map[]
  {
    var started := ListStartRequest(task);
    if started.Refused? {
      return StartError(started.error), map[];
    }
    var async := started.listing;
    ghost var all, sent: seq<Item> := async.pending, [];
    var slots: seq<Slot> := [];
    while async.listing.stack != []
      invariant async.Valid() && fresh(async) && fresh(async.Repr()) && fresh(async.response)
      invariant sent + async.pending == all && slots == EncodeAll(sent)
      invariant async.listing.stack == [] ==> async.listing.links == map[]
      decreases |async.pending|
    {
      var batch, news := async.ListNextRequest(size);
      slots := slots + batch;
      sent := Append(sent, news, async.pending);
      async.Emptied();
    }
    assert sent + [] == sent;
    DirNotDone(task.fs, task.opt, task.path, task.root, [], true);
    EndMarked(ListDir(task.fs, task.opt, task.path, task.root, [], true));
    ReadBack(ListDir(task.fs, task.opt, task.path, task.root, [], true));
    return Responses(slots), async.listing.links;
  }
}
