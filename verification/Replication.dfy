/** Incremental page replication: the sync server scans the write-ahead log
    backwards, sends the newest version of every selected page, and frames the
    messages with Base 128 varints (Protocol Buffers encoding guide, section
    "Base 128 Varints"). */
module Replication {

  import opened Common

  type Data = seq<Byte>

  /** A log frame; the log numbers pages from 1, the protocol from 0. */
  datatype Frame = Frame(pageNo: nat, data: Data)

  datatype PageData = PageData(pageId: nat, page: Data)

  type Wal = seq<Frame>

  predicate ValidWal(wal: Wal) { forall i :: 0 <= i < |wal| ==> 0 < wal[i].pageNo }

  function PageOf(wal: Wal, frameNo: nat): nat
    requires ValidWal(wal) && 0 < frameNo <= |wal|
  {
    wal[frameNo - 1].pageNo - 1
  }

  function DataOf(wal: Wal, frameNo: nat): Data
    requires 0 < frameNo <= |wal|
  {
    wal[frameNo - 1].data
  }

  predicate Selected(selector: Option<set<nat>>, page: nat) {
    selector.None? || page in selector.value
  }

  // ---------- What replication must achieve ----------

  /** Frames c+1 up to s, replayed one by one on a page store. */
  function Replay(store: map<nat, Data>, wal: Wal, c: nat, s: nat): map<nat, Data>
    requires ValidWal(wal) && s <= |wal|
  {
    if s <= c then store else Replay(store, wal, c, s - 1)[PageOf(wal, s) := DataOf(wal, s)]
  }

  /** A client installs the received pages in the order they arrive. */
  function Install(store: map<nat, Data>, pages: seq<PageData>): map<nat, Data>
    decreases |pages|
  {
    if pages == [] then store else Install(store[pages[0].pageId := pages[0].page], pages[1..])
  }

  /** The last frame in c+1..s that writes the page. */
  function LastWrite(wal: Wal, c: nat, s: nat, page: nat): (f: Option<nat>)
    requires ValidWal(wal) && s <= |wal|
    ensures f.Some? ==> c < f.value <= s && PageOf(wal, f.value) == page
    ensures forall g :: c < g <= s && PageOf(wal, g) == page ==> f.Some? && g <= f.value
  {
    if s <= c then None
    else if PageOf(wal, s) == page then Some(s)
    else LastWrite(wal, c, s - 1, page)
  }

  predicate IsSent(wal: Wal, f: nat, s: nat, selector: Option<set<nat>>)
    requires ValidWal(wal) && 0 < f <= s <= |wal|
  {
    Selected(selector, PageOf(wal, f)) && LastWrite(wal, f, s, PageOf(wal, f)).None?
  }

  function MessageOf(wal: Wal, f: nat): PageData
    requires ValidWal(wal) && 0 < f <= |wal|
  {
    PageData(PageOf(wal, f), DataOf(wal, f))
  }

  /** The pages sent for the range c+1..s, oldest last write first. */
  function Pull(wal: Wal, c: nat, s: nat, selector: Option<set<nat>>): seq<PageData>
    requires ValidWal(wal) && s <= |wal|
    decreases s - c
  {
    if s <= c then []
    else (if IsSent(wal, c + 1, s, selector) then [MessageOf(wal, c + 1)] else []) + Pull(wal, c + 1, s, selector)
  }

  // ---------- The server's scan ----------

  function Reversed<T>(s: seq<T>): seq<T> {
    if s == [] then [] else Reversed(s[1..]) + [s[0]]
  }

  lemma {:induction false} ReversedPush<T>(s: seq<T>, x: T)
    ensures Reversed(s + [x]) == [x] + Reversed(s)
  {
    if s == [] {
      assert s + [x] == [x];
    } else {
      assert (s + [x])[1..] == s[1..] + [x];
      ReversedPush(s[1..], x);
    }
  }

  ghost predicate SeenPages(wal: Wal, c: nat, s: nat, selector: Option<set<nat>>, seen: set<nat>)
    requires ValidWal(wal) && s <= |wal|
  {
    forall page: nat :: page + 1 in seen <==> Selected(selector, page) && LastWrite(wal, c, s, page).Some?
  }

  lemma LastWriteFront(wal: Wal, c: nat, s: nat, page: nat)
    requires ValidWal(wal) && c < s <= |wal|
    ensures LastWrite(wal, c, s, page) ==
            if LastWrite(wal, c + 1, s, page).Some? then LastWrite(wal, c + 1, s, page)
            else if PageOf(wal, c + 1) == page then Some(c + 1) else None
  {
  }

  lemma SeenStep(wal: Wal, c: nat, s: nat, selector: Option<set<nat>>, seen: set<nat>)
    requires ValidWal(wal) && c < s <= |wal| && SeenPages(wal, c + 1, s, selector, seen)
    ensures var page := PageOf(wal, c + 1);
            && (page + 1 in seen <==> Selected(selector, page) && LastWrite(wal, c + 1, s, page).Some?)
            && SeenPages(wal, c, s, selector, if Selected(selector, page) then seen + {page + 1} else seen)
  {
    var page := PageOf(wal, c + 1);
    var next := if Selected(selector, page) then seen + {page + 1} else seen;
    forall p: nat ensures p + 1 in next <==> Selected(selector, p) && LastWrite(wal, c, s, p).Some? {
      LastWriteFront(wal, c, s, p);
    }
  }

  method HandlePullUpdates(wal: Wal, clientRevision: nat, serverRevision: nat, selector: Option<set<nat>>)
      returns (pagesToSend: seq<PageData>)
    requires ValidWal(wal) && serverRevision <= |wal|
    ensures pagesToSend == Pull(wal, clientRevision, serverRevision, selector)
  {
    hide LastWrite, SeenPages;
    var seenPages: set<nat> := {};
    pagesToSend := [];
    NothingSeen(wal, serverRevision, selector);
    if serverRevision > clientRevision {
      var frameNo := serverRevision;
      while frameNo > clientRevision
        invariant clientRevision <= frameNo <= serverRevision
        invariant SeenPages(wal, frameNo, serverRevision, selector, seenPages)
        invariant Reversed(pagesToSend) == Pull(wal, frameNo, serverRevision, selector)
      {
        var pageNo := wal[frameNo - 1].pageNo;
        var pageData := wal[frameNo - 1].data;
        var pageId := pageNo - 1;
        frameNo := frameNo - 1;
        SeenStep(wal, frameNo, serverRevision, selector, seenPages);
        if pageNo in seenPages {
          assert seenPages + {pageNo} == seenPages;
          continue;
        }
        if selector.Some? {
          if pageId !in selector.value {
            continue;
          }
        }
        seenPages := seenPages + {pageNo};
        ReversedPush(pagesToSend, PageData(pageId, pageData));
        pagesToSend := pagesToSend + [PageData(pageId, pageData)];
      }
    }
    pagesToSend := Reversed(pagesToSend);
  }

  lemma NothingSeen(wal: Wal, s: nat, selector: Option<set<nat>>)
    requires ValidWal(wal) && s <= |wal|
    ensures SeenPages(wal, s, s, selector, {})
  {
  }

  // ---------- What the scan achieves ----------

  function Get(store: map<nat, Data>, page: nat): Option<Data> {
    if page in store then Some(store[page]) else None
  }

  /** A page after frames of the range, when f is the last of them to write it. */
  function Newest(store: map<nat, Data>, wal: Wal, f: Option<nat>, page: nat): Option<Data>
    requires f.Some? ==> 0 < f.value <= |wal|
  {
    if f.Some? then Some(DataOf(wal, f.value)) else Get(store, page)
  }

  lemma {:induction false} ReplayAt(store: map<nat, Data>, wal: Wal, c: nat, s: nat, page: nat)
    requires ValidWal(wal) && s <= |wal|
    ensures Get(Replay(store, wal, c, s), page) == Newest(store, wal, LastWrite(wal, c, s, page), page)
    decreases s
  {
    if s > c {
      ReplayAt(store, wal, c, s - 1, page);
    }
  }

  function Visible(wal: Wal, c: nat, s: nat, selector: Option<set<nat>>, page: nat): (f: Option<nat>)
    requires ValidWal(wal) && s <= |wal|
    ensures f.Some? ==> c < f.value <= s
  {
    if Selected(selector, page) then LastWrite(wal, c, s, page) else None
  }

  lemma InstallFront(store: map<nat, Data>, first: PageData, rest: seq<PageData>)
    ensures Install(store, [first] + rest) == Install(store[first.pageId := first.page], rest)
  {
    assert ([first] + rest)[1..] == rest;
  }

  lemma NewestFront(store: map<nat, Data>, wal: Wal, c: nat, s: nat, selector: Option<set<nat>>, page: nat)
    requires ValidWal(wal) && c < s <= |wal|
    ensures var first := MessageOf(wal, c + 1);
            var base := if IsSent(wal, c + 1, s, selector) then store[first.pageId := first.page] else store;
            Newest(base, wal, Visible(wal, c + 1, s, selector, page), page) ==
            Newest(store, wal, Visible(wal, c, s, selector, page), page)
  {
    hide LastWrite;
    LastWriteFront(wal, c, s, page);
  }

  lemma PullFront(wal: Wal, c: nat, s: nat, selector: Option<set<nat>>)
    requires ValidWal(wal) && c < s <= |wal|
    ensures var rest := Pull(wal, c + 1, s, selector);
            Pull(wal, c, s, selector) ==
            if IsSent(wal, c + 1, s, selector) then [MessageOf(wal, c + 1)] + rest else rest
  {
  }

  lemma NothingInstalled(store: map<nat, Data>, wal: Wal, c: nat, s: nat, selector: Option<set<nat>>, page: nat)
    requires ValidWal(wal) && s <= |wal| && s <= c
    ensures Get(Install(store, Pull(wal, c, s, selector)), page) ==
            Newest(store, wal, Visible(wal, c, s, selector, page), page)
  {
  }

  /** After installing, a selected page holds its last version in the range and
      every other page is as it was. */
  lemma {:induction false} InstalledAt(store: map<nat, Data>, wal: Wal, c: nat, s: nat, selector: Option<set<nat>>,
                                       page: nat)
    requires ValidWal(wal) && s <= |wal|
    ensures Get(Install(store, Pull(wal, c, s, selector)), page) ==
            Newest(store, wal, Visible(wal, c, s, selector, page), page)
    decreases s - c
  {
    hide LastWrite, Install, Newest, Visible, IsSent, Pull, Get, MessageOf;
    if c >= s {
      NothingInstalled(store, wal, c, s, selector, page);
    } else {
      NewestFront(store, wal, c, s, selector, page);
      PullFront(wal, c, s, selector);
      var first, rest := MessageOf(wal, c + 1), Pull(wal, c + 1, s, selector);
      if IsSent(wal, c + 1, s, selector) {
        InstallFront(store, first, rest);
        InstalledAt(store[first.pageId := first.page], wal, c + 1, s, selector, page);
      } else {
        InstalledAt(store, wal, c + 1, s, selector, page);
      }
    }
  }

  lemma {:induction false} ReplayCompose(store: map<nat, Data>, wal: Wal, c: nat, s: nat)
    requires ValidWal(wal) && c <= s <= |wal|
    ensures Replay(store, wal, 0, s) == Replay(Replay(store, wal, 0, c), wal, c, s)
    decreases s
  {
    if c < s {
      ReplayCompose(store, wal, c, s - 1);
    }
  }

  /** A client at revision c that installs the pull up to s agrees with the full
      replay up to s on every selected page, and keeps every other page. */
  lemma PullCatchesUp(store: map<nat, Data>, wal: Wal, c: nat, s: nat, selector: Option<set<nat>>, page: nat)
    requires ValidWal(wal) && c <= s <= |wal|
    ensures var client := Replay(store, wal, 0, c);
            var after := Install(client, Pull(wal, c, s, selector));
            Get(after, page) == Get(if Selected(selector, page) then Replay(store, wal, 0, s) else client, page)
  {
    hide Replay, Install, Pull, LastWrite;
    var client := Replay(store, wal, 0, c);
    ReplayCompose(store, wal, c, s);
    ReplayAt(client, wal, c, s, page);
    InstalledAt(client, wal, c, s, selector, page);
  }

  lemma {:induction false} LastWriteCompose(wal: Wal, c: nat, m: nat, s: nat, page: nat)
    requires ValidWal(wal) && c <= m <= s <= |wal|
    ensures LastWrite(wal, c, s, page) ==
            if LastWrite(wal, m, s, page).Some? then LastWrite(wal, m, s, page) else LastWrite(wal, c, m, page)
    decreases s
  {
    if m < s {
      LastWriteCompose(wal, c, m, s - 1, page);
    }
  }

  lemma SameStores(a: map<nat, Data>, b: map<nat, Data>)
    requires forall page: nat :: Get(a, page) == Get(b, page)
    ensures a == b
  {
    assert forall page :: page in a ==> Get(b, page) == Some(a[page]);
    assert forall page :: page in b ==> Get(a, page) == Some(b[page]);
  }

  /** Pulling to an intermediate revision and then on is pulling at once. */
  lemma PullsCompose(store: map<nat, Data>, wal: Wal, c: nat, m: nat, s: nat, selector: Option<set<nat>>)
    requires ValidWal(wal) && c <= m <= s <= |wal|
    ensures Install(Install(store, Pull(wal, c, m, selector)), Pull(wal, m, s, selector)) ==
            Install(store, Pull(wal, c, s, selector))
  {
    var half := Install(store, Pull(wal, c, m, selector));
    var twice := Install(half, Pull(wal, m, s, selector));
    var once := Install(store, Pull(wal, c, s, selector));
    hide Pull, Install, LastWrite;
    forall page: nat ensures Get(twice, page) == Get(once, page) {
      InstalledAt(store, wal, c, m, selector, page);
      InstalledAt(half, wal, m, s, selector, page);
      InstalledAt(store, wal, c, s, selector, page);
      LastWriteCompose(wal, c, m, s, page);
    }
    SameStores(twice, once);
  }

  /** The frames whose pages are sent, in order: each is the last write of a
      selected page, all of them are there, and they increase. */
  ghost predicate AreLastWrites(wal: Wal, c: nat, s: nat, selector: Option<set<nat>>, fs: seq<nat>)
    requires ValidWal(wal) && s <= |wal|
  {
    && (forall i :: 0 <= i < |fs| ==> c < fs[i] <= s)
    && (forall i, j :: 0 <= i < j < |fs| ==> fs[i] < fs[j])
    && (forall f :: c < f <= s ==>
          (f in fs <==> Selected(selector, PageOf(wal, f)) && LastWrite(wal, f, s, PageOf(wal, f)).None?))
  }

  lemma LastWritesFront(wal: Wal, c: nat, s: nat, selector: Option<set<nat>>, rest: seq<nat>)
    requires ValidWal(wal) && c < s <= |wal| && AreLastWrites(wal, c + 1, s, selector, rest)
    ensures AreLastWrites(wal, c, s, selector, (if IsSent(wal, c + 1, s, selector) then [c + 1] else []) + rest)
  {
    hide LastWrite;
    var fs := (if IsSent(wal, c + 1, s, selector) then [c + 1] else []) + rest;
    assert forall f :: f in fs <==> f in rest || (f == c + 1 && IsSent(wal, c + 1, s, selector));
  }

  /** Pages are sent in the order of their last writes. */
  lemma {:induction false} SentInOrder(wal: Wal, c: nat, s: nat, selector: Option<set<nat>>) returns (fs: seq<nat>)
    requires ValidWal(wal) && s <= |wal|
    ensures AreLastWrites(wal, c, s, selector, fs)
    ensures |fs| == |Pull(wal, c, s, selector)|
    ensures forall i :: 0 <= i < |fs| ==> Pull(wal, c, s, selector)[i] == MessageOf(wal, fs[i])
    decreases s - c
  {
    hide LastWrite, IsSent;
    if s <= c {
      fs := [];
    } else {
      var rest := SentInOrder(wal, c + 1, s, selector);
      LastWritesFront(wal, c, s, selector, rest);
      fs := (if IsSent(wal, c + 1, s, selector) then [c + 1] else []) + rest;
    }
  }

  lemma NoPageTwice(wal: Wal, c: nat, s: nat, selector: Option<set<nat>>, i: nat, j: nat)
    requires ValidWal(wal) && s <= |wal| && i < j < |Pull(wal, c, s, selector)|
    ensures Pull(wal, c, s, selector)[i].pageId != Pull(wal, c, s, selector)[j].pageId
  {
    var fs := SentInOrder(wal, c, s, selector);
    assert fs[i] in fs && fs[i] < fs[j] <= s;
  }

  // ---------- Message framing ----------

  function Varint(n: nat): seq<Byte> {
    if n < 128 then [n as Byte] else [(128 + n % 128) as Byte] + Varint(n / 128)
  }

  function Delimited(data: Data): seq<Byte> { Varint(|data|) + data }

  function Stream(messages: seq<Data>): seq<Byte> {
    if messages == [] then [] else Delimited(messages[0]) + Stream(messages[1..])
  }

  /** `(len as u8) | 0x80`. */
  function LowByteContinued(len: nat): Byte {
    var b := (len % 256) as Byte;
    if b < 128 then b + 128 else b
  }

  method EncodeLengthDelimited(output: seq<Byte>, data: Data) returns (extended: seq<Byte>)
    ensures extended == output + Delimited(data)
  {
    hide Varint, LowByteContinued;
    extended := output;
    var len: nat := |data|;
    while len >= 0x80
      invariant extended + Varint(len) == output + Varint(|data|)
    {
      VarintStep(extended, len);
      extended := extended + [LowByteContinued(len)];
      len := len / 128;
    }
    VarintEnd(extended, len);
    extended := extended + [len as Byte];
    extended := extended + data;
    assert output + Varint(|data|) + data == output + Delimited(data);
  }

  lemma VarintStep(done: seq<Byte>, len: nat)
    requires len >= 128
    ensures done + Varint(len) == done + [LowByteContinued(len)] + Varint(len / 128)
  {
    assert LowByteContinued(len) == (128 + len % 128) as Byte;
    assert Varint(len) == [LowByteContinued(len)] + Varint(len / 128);
  }

  lemma VarintEnd(done: seq<Byte>, len: nat)
    requires len < 128
    ensures done + Varint(len) == done + [len as Byte]
  {
  }

  method EncodeResponse(header: Data, pages: seq<Data>) returns (body: seq<Byte>)
    ensures body == Stream([header] + pages)
    ensures Decode(body) == Some([header] + pages)
  {
    body := EncodeLengthDelimited([], header);
    assert Stream([header]) == Delimited(header) by { assert [header][1..] == []; }
    for i := 0 to |pages|
      invariant body == Stream([header] + pages[..i])
    {
      StreamPush([header] + pages[..i], pages[i]);
      assert [header] + pages[..i + 1] == [header] + pages[..i] + [pages[i]];
      body := EncodeLengthDelimited(body, pages[i]);
    }
    assert pages[..|pages|] == pages;
    StreamRoundTrip([header] + pages);
  }

  lemma {:induction false} StreamPush(messages: seq<Data>, m: Data)
    ensures Stream(messages + [m]) == Stream(messages) + Delimited(m)
  {
    if messages == [] {
      assert messages + [m] == [m] && [m][1..] == [];
    } else {
      assert (messages + [m])[1..] == messages[1..] + [m];
      StreamPush(messages[1..], m);
    }
  }

  /** The receiving side: value and length of a leading varint. */
  function ReadVarint(bytes: seq<Byte>): (r: Option<(nat, nat)>)
    ensures r.Some? ==> 0 < r.value.1 <= |bytes|
  {
    if bytes == [] then None
    else if bytes[0] < 128 then Some((bytes[0] as nat, 1))
    else match ReadVarint(bytes[1..])
      case None => None
      case Some((high, used)) => Some((bytes[0] as nat - 128 + 128 * high, used + 1))
  }

  function Decode(bytes: seq<Byte>): Option<seq<Data>>
    decreases |bytes|
  {
    if bytes == [] then Some([])
    else match ReadVarint(bytes)
      case None => None
      case Some((len, used)) =>
        if used + len > |bytes| then None
        else match Decode(bytes[used + len..])
          case None => None
          case Some(rest) => Some([bytes[used..used + len]] + rest)
  }

  lemma {:induction false} VarintRead(n: nat, tail: seq<Byte>)
    ensures ReadVarint(Varint(n) + tail) == Some((n, |Varint(n)|))
  {
    var bytes := Varint(n) + tail;
    if n >= 128 {
      VarintRead(n / 128, tail);
      assert bytes[1..] == Varint(n / 128) + tail;
    }
  }

  lemma DecodeFirst(m: Data, tail: seq<Byte>)
    ensures Decode(Delimited(m) + tail) ==
            match Decode(tail) case None => None case Some(rest) => Some([m] + rest)
  {
    var bytes := Delimited(m) + tail;
    var used := |Varint(|m|)|;
    assert bytes == Varint(|m|) + (m + tail);
    VarintRead(|m|, m + tail);
    assert bytes[used..used + |m|] == m;
    assert bytes[used + |m|..] == tail;
  }

  /** The receiver gets back exactly the messages that were framed. */
  lemma {:induction false} StreamRoundTrip(messages: seq<Data>)
    ensures Decode(Stream(messages)) == Some(messages)
  {
    if messages != [] {
      hide Delimited;
      StreamRoundTrip(messages[1..]);
      DecodeFirst(messages[0], Stream(messages[1..]));
      assert messages == [messages[0]] + messages[1..];
    }
  }
}
