/**
 * The downloader's persistent ledger (`DownloadState` in batch_download.py): three lists of
 * books, `downloaded`, `pending` and `failed`, each identified by the key `id + "_" + hash`.
 * The document-level functions say what each update does to the saved state; the class keeps
 * the state in fields and updates them in place, as the source does.
 */
module Ledger {
  import opened Maybe
  import opened Seqs
  import ListFile

  type Edition = ListFile.Edition

  /** An entry of `failed`: the book's fields with `fail_reason` and `fail_count` (a state file written by hand may lack the count). */
  datatype FailedEntry = FailedEntry(book: Edition, reason: string, count: Option<int>)

  /** The three lists of the state file; `last_update` is left out. */
  datatype StateDocument = StateDocument(downloaded: seq<Edition>, pending: seq<Edition>, failed: seq<FailedEntry>)

  /** The state `_load_state` starts from when there is no readable state file. */
  const EmptyDocument := StateDocument([], [], [])

  function FailedKeys(fs: seq<FailedEntry>): seq<string> {
    Map((e: FailedEntry) => ListFile.BookKey(e.book), fs)
  }

  /** Position of the first failed entry with `key` (`next(...)` over the list), or |fs| when there is none. */
  function FirstWithKey(fs: seq<FailedEntry>, key: string): (i: nat)
    ensures i <= |fs|
    ensures i < |fs| ==> ListFile.BookKey(fs[i].book) == key
    ensures forall k :: 0 <= k < i ==> ListFile.BookKey(fs[k].book) != key
  {
    if fs == [] then 0
    else if ListFile.BookKey(fs[0].book) == key then 0
    else 1 + FirstWithKey(fs[1..], key)
  }

  /** `fail_count` of the first entry with `key` (0 when it has none), or 0 when no entry has the key. */
  function FailCount(fs: seq<FailedEntry>, key: string): int {
    var i := FirstWithKey(fs, key);
    if i < |fs| then fs[i].count.GetOr(0) else 0
  }

  // ----- the three updates, on the document -----

  /** `add_downloaded`. */
  function RecordSuccess(d: StateDocument, b: Edition): StateDocument {
    var key := ListFile.BookKey(b);
    d.(downloaded := if key in ListFile.Keys(d.downloaded) then d.downloaded else d.downloaded + [b],
       pending := Filter(d.pending, (e: Edition) => ListFile.BookKey(e) != key))
  }

  /** `add_pending`. */
  function RecordPending(d: StateDocument, b: Edition): StateDocument {
    if ListFile.BookKey(b) in ListFile.Keys(d.pending) then d else d.(pending := d.pending + [b])
  }

  /** `add_failed`: the first entry with the key gets the new reason and one more failure, else a new entry is appended. */
  function RecordFailure(d: StateDocument, b: Edition, reason: string): StateDocument {
    var i := FirstWithKey(d.failed, ListFile.BookKey(b));
    if i < |d.failed| then
      d.(failed := d.failed[i := d.failed[i].(reason := reason, count := Some(d.failed[i].count.GetOr(0) + 1))])
    else
      d.(failed := d.failed + [FailedEntry(b, reason, Some(1))])
  }

  // ----- what the updates promise -----

  lemma KeysSnoc(es: seq<Edition>, b: Edition)
    ensures ListFile.Keys(es + [b]) == ListFile.Keys(es) + [ListFile.BookKey(b)]
  {
    ListFile.MapSnoc(ListFile.BookKey, es, b);
  }

  /** Pending a book whose key is already pending changes nothing; otherwise it is appended, so pending grows by at most one and keeps its old entries in front. */
  lemma PendingGrowth(d: StateDocument, b: Edition)
    ensures var r := RecordPending(d, b);
      && ListFile.BookKey(b) in ListFile.Keys(r.pending)
      && d.pending <= r.pending && |r.pending| <= |d.pending| + 1
      && (ListFile.BookKey(b) in ListFile.Keys(d.pending) <==> r == d)
      && r.downloaded == d.downloaded && r.failed == d.failed
  {
    KeysSnoc(d.pending, b);
    if ListFile.BookKey(b) !in ListFile.Keys(d.pending) {
      assert |RecordPending(d, b).pending| == |d.pending| + 1;
    }
  }

  /** `add_pending` is idempotent. */
  lemma PendingIdempotent(d: StateDocument, b: Edition)
    ensures RecordPending(RecordPending(d, b), b) == RecordPending(d, b)
  {
    KeysSnoc(d.pending, b);
  }

  /** Pending keys that were unique stay unique. */
  lemma PendingKeysUnique(d: StateDocument, b: Edition)
    requires Distinct(ListFile.Keys(d.pending))
    ensures Distinct(ListFile.Keys(RecordPending(d, b).pending))
  {
    KeysSnoc(d.pending, b);
  }

  /** After a success the book's key is downloaded and no longer pending; every other pending entry stays, in its order; `failed` is untouched. */
  lemma SuccessClearsPending(d: StateDocument, b: Edition)
    ensures var r := RecordSuccess(d, b);
      && ListFile.BookKey(b) in ListFile.Keys(r.downloaded)
      && ListFile.BookKey(b) !in ListFile.Keys(r.pending)
      && (forall e :: e in r.pending <==> e in d.pending && ListFile.BookKey(e) != ListFile.BookKey(b))
      && IsSubseq(r.pending, d.pending)
      && r.failed == d.failed
  {
    var key := ListFile.BookKey(b);
    var p := (e: Edition) => ListFile.BookKey(e) != key;
    var r := RecordSuccess(d, b);
    KeysSnoc(d.downloaded, b);
    FilterIsSubseq(d.pending, p);
    forall e ensures e in r.pending <==> e in d.pending && ListFile.BookKey(e) != key {
      FilterMembers(d.pending, p, e);
    }
    forall i | 0 <= i < |r.pending| ensures ListFile.Keys(r.pending)[i] != key {
      assert p(r.pending[i]);
    }
  }

  /** A book is appended to `downloaded` only when its key is new there, so downloaded keys that were unique stay unique. */
  lemma DownloadedKeysUnique(d: StateDocument, b: Edition)
    requires Distinct(ListFile.Keys(d.downloaded))
    ensures var r := RecordSuccess(d, b);
      && Distinct(ListFile.Keys(r.downloaded))
      && d.downloaded <= r.downloaded && |r.downloaded| <= |d.downloaded| + 1
  {
    KeysSnoc(d.downloaded, b);
  }

  /** Recording a success twice is recording it once. */
  lemma SuccessIdempotent(d: StateDocument, b: Edition)
    ensures RecordSuccess(RecordSuccess(d, b), b) == RecordSuccess(d, b)
  {
    var key := ListFile.BookKey(b);
    var p := (e: Edition) => ListFile.BookKey(e) != key;
    var once := Filter(d.pending, p);
    FilterAll(once, p);
    SuccessClearsPending(d, b);
  }

  lemma FailedKeysSnoc(fs: seq<FailedEntry>, e: FailedEntry)
    ensures FailedKeys(fs + [e]) == FailedKeys(fs) + [ListFile.BookKey(e.book)]
  {
    ListFile.MapSnoc((x: FailedEntry) => ListFile.BookKey(x.book), fs, e);
  }

  /** A failure adds one to the book's fail count (a missing count reads as 0), leaves every other key's count alone, grows the list only for a new key, and touches neither `downloaded` nor `pending`. */
  lemma FailureCounts(d: StateDocument, b: Edition, reason: string, other: string)
    requires other != ListFile.BookKey(b)
    ensures var r := RecordFailure(d, b, reason);
      var key := ListFile.BookKey(b);
      && FailCount(r.failed, key) == FailCount(d.failed, key) + 1
      && FailCount(r.failed, other) == FailCount(d.failed, other)
      && |r.failed| == |d.failed| + (if key in FailedKeys(d.failed) then 0 else 1)
      && FirstWithKey(r.failed, key) < |r.failed| && r.failed[FirstWithKey(r.failed, key)].reason == reason
      && r.downloaded == d.downloaded && r.pending == d.pending
  {
    var key := ListFile.BookKey(b);
    var fs := d.failed;
    var r := RecordFailure(d, b, reason);
    var i := FirstWithKey(fs, key);
    if i < |fs| {
      FirstWithKeyAt(r.failed, key, i);
      assert key in FailedKeys(fs) by {
        assert FailedKeys(fs)[i] == key;
      }
      FirstWithKeyFrame(fs, r.failed, i, other);
    } else {
      FailedKeysSnoc(fs, FailedEntry(b, reason, Some(1)));
      FirstWithKeyAt(r.failed, key, |fs|);
      FirstWithKeyFrame(fs, r.failed, |fs|, other);
      assert key !in FailedKeys(fs) by {
        forall k | 0 <= k < |fs| ensures FailedKeys(fs)[k] != key {
        }
      }
    }
  }

  /** The first entry with `key` is at `i` when entry `i` has it and no earlier one does. */
  lemma {:induction false} FirstWithKeyAt(fs: seq<FailedEntry>, key: string, i: nat)
    requires i < |fs| && ListFile.BookKey(fs[i].book) == key
    requires forall k :: 0 <= k < i ==> ListFile.BookKey(fs[k].book) != key
    ensures FirstWithKey(fs, key) == i
  {
    if i > 0 {
      FirstWithKeyAt(fs[1..], key, i - 1);
    }
  }

  /** Entries other than position `i` are kept, so a key whose entries lie elsewhere is found at the same place with the same count. */
  lemma FirstWithKeyFrame(fs: seq<FailedEntry>, gs: seq<FailedEntry>, i: nat, other: string)
    requires i <= |fs| <= |gs| && |gs| <= |fs| + 1
    requires forall k :: 0 <= k < |fs| && k != i ==> gs[k] == fs[k]
    requires i < |gs| ==> ListFile.BookKey(gs[i].book) != other
    requires i < |fs| ==> ListFile.BookKey(fs[i].book) != other
    requires |gs| == |fs| + 1 ==> i == |fs|
    ensures FailCount(gs, other) == FailCount(fs, other)
  {
    var j := FirstWithKey(fs, other);
    if j < |fs| {
      assert j != i;
      FirstWithKeyAt(gs, other, j);
    } else {
      assert forall k :: 0 <= k < |gs| ==> ListFile.BookKey(gs[k].book) != other;
    }
  }

  /** A failure keeps the failed keys as they were when the book's key is among them, and appends it otherwise. */
  lemma FailureKeys(d: StateDocument, b: Edition, reason: string)
    ensures var key := ListFile.BookKey(b);
      FailedKeys(RecordFailure(d, b, reason).failed) ==
      if key in FailedKeys(d.failed) then FailedKeys(d.failed) else FailedKeys(d.failed) + [key]
  {
    var key := ListFile.BookKey(b);
    var fs := d.failed;
    var i := FirstWithKey(fs, key);
    var gs := RecordFailure(d, b, reason).failed;
    if i < |fs| {
      assert key in FailedKeys(fs) by {
        assert FailedKeys(fs)[i] == key;
      }
      assert FailedKeys(gs) == FailedKeys(fs) by {
        assert forall k :: 0 <= k < |fs| ==> gs[k].book == fs[k].book;
      }
    } else {
      FailedKeysSnoc(fs, FailedEntry(b, reason, Some(1)));
      assert key !in FailedKeys(fs) by {
        forall k | 0 <= k < |fs| ensures FailedKeys(fs)[k] != key {
        }
      }
    }
  }

  /** Failed keys that were unique stay unique. */
  lemma FailedKeysUnique(d: StateDocument, b: Edition, reason: string)
    requires Distinct(FailedKeys(d.failed))
    ensures Distinct(FailedKeys(RecordFailure(d, b, reason).failed))
  {
    FailureKeys(d, b, reason);
  }

  // ----- the state object -----

  /** `DownloadState`: the state file's three lists, updated in place. */
  class DownloadState {
    var downloaded: seq<Edition>
    var pending: seq<Edition>
    var failed: seq<FailedEntry>

    function Document(): StateDocument
      reads this
    {
      StateDocument(downloaded, pending, failed)
    }

    /** `_load_state`: the saved document when the state file exists and parses, else three empty lists. */
    constructor (saved: Option<StateDocument>)
      ensures Document() == saved.GetOr(EmptyDocument)
    {
      var d := saved.GetOr(EmptyDocument);
      downloaded := d.downloaded;
      pending := d.pending;
      failed := d.failed;
    }

    method AddDownloaded(book: Edition)
      modifies this
      ensures Document() == RecordSuccess(old(Document()), book)
    {
      var bookKey := ListFile.BookKey(book);
      if bookKey !in ListFile.Keys(downloaded) {
        downloaded := downloaded + [book];
      }
      pending := Filter(pending, (e: Edition) => ListFile.BookKey(e) != bookKey);
    }

    method AddPending(book: Edition)
      modifies this
      ensures Document() == RecordPending(old(Document()), book)
    {
      var bookKey := ListFile.BookKey(book);
      if bookKey !in ListFile.Keys(pending) {
        pending := pending + [book];
      }
    }

    method AddFailed(book: Edition, reason: string)
      modifies this
      ensures Document() == RecordFailure(old(Document()), book, reason)
    {
      var bookKey := ListFile.BookKey(book);
      var i := FirstWithKey(failed, bookKey);
      if i < |failed| {
        var existing := failed[i];
        failed := failed[i := existing.(reason := reason, count := Some(existing.count.GetOr(0) + 1))];
      } else {
        failed := failed + [FailedEntry(book, reason, Some(1))];
      }
    }

    /** `get_pending_count`. */
    function PendingCount(): nat
      reads this
    {
      |pending|
    }

    /** `get_downloaded_count`. */
    function DownloadedCount(): nat
      reads this
    {
      |downloaded|
    }
  }
}
