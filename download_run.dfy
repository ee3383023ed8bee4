/**
 * One run of batch_download.py after login: how `download_book` turns the client's answer into
 * a success, a quota stop or a failure, how `main` builds the work list (the list file's picks,
 * then the pending books of an earlier run, then without what is already downloaded), and the
 * download loop that records every outcome in the ledger.
 *
 * The Z-Library client is a parameter: `server(i)` is its answer to the download request for
 * the i-th book of the work list, and `left` is the remaining daily quota it reported at login.
 */
module DownloadRun {
  import opened Maybe
  import opened Text
  import opened Seqs
  import ListFile
  import Ledger

  type Edition = ListFile.Edition
  type StateDocument = Ledger.StateDocument

  // ===================== download_book =====================

  /**
   * What `zlib.downloadBook` did: returned a file (saved under `path`), returned `None` (the quota
   * `getDownloadsLeft` reports afterwards is part of the answer), or raised an exception.
   */
  datatype Reply = Delivered(path: string) | NoFile(downloadsLeft: int) | Raised(message: string)

  /** The result string that stops the run. */
  const LimitReached := "download_limit_reached"

  /** `(success, result, message)` as `download_book` returns it. */
  datatype Outcome = Outcome(success: bool, result: string, message: string)

  /** The exception text names a limit or a quota (`"limit" in msg.lower() or "quota" in msg.lower()`). */
  predicate MentionsLimit(message: string) {
    Contains(Lower(message), "limit") || Contains(Lower(message), "quota")
  }

  function DownloadBook(reply: Reply): Outcome {
    match reply
    case Delivered(path) => Outcome(true, path, "下载成功")
    case NoFile(left) =>
      if left <= 0 then Outcome(false, LimitReached, "今日下载次数已用尽")
      else Outcome(false, "download_failed", "下载失败，返回结果为空")
    case Raised(message) =>
      if MentionsLimit(message) then Outcome(false, LimitReached, message)
      else Outcome(false, message, message)
  }

  /** The limit marker itself mentions a limit, so no other exception text can pass for it. */
  lemma LimitMarkerMentionsLimit()
    ensures MentionsLimit(LimitReached)
  {
    assert LimitReached[9..14] == "limit";
    ContainsLowerWord(LimitReached, 9, "limit");
  }

  /** A word without capitals that occurs in `s` occurs in `s.lower()`. */
  lemma ContainsLowerWord(s: string, i: nat, w: string)
    requires i + |w| <= |s| && s[i..i + |w|] == w
    requires forall k :: 0 <= k < |w| ==> !IsUpper(w[k])
    ensures Contains(Lower(s), w)
  {
    var l := Lower(s);
    assert w <= l[i..] by {
      forall k | 0 <= k < |w| ensures l[i + k] == w[k] {
        assert s[i + k] == w[k];
      }
    }
    ContainsAt(l, w);
  }

  /**
   * A download succeeds exactly when a file came back; the run stops exactly when there was no
   * file and no quota left, or the exception names a limit or quota; any other failure carries
   * the exception text, or the fixed message for an empty answer.
   */
  lemma DownloadBookOutcomes(reply: Reply)
    ensures var o := DownloadBook(reply);
      && (o.success <==> reply.Delivered?)
      && (o.success ==> o.result == reply.path && o.message == "下载成功")
      && (!o.success && o.result == LimitReached <==>
          (reply.NoFile? && reply.downloadsLeft <= 0) || (reply.Raised? && MentionsLimit(reply.message)))
      && (reply.Raised? && !MentionsLimit(reply.message) ==> o.message == reply.message)
      && (reply.NoFile? && reply.downloadsLeft > 0 ==> o.message == "下载失败，返回结果为空")
  {
    if reply.Raised? && reply.message == LimitReached {
      LimitMarkerMentionsLimit();
    }
  }

  // ===================== building the work list =====================

  /** The set `existing_keys` starts as. */
  function KeySet(es: seq<Edition>): set<string> {
    set k | k in ListFile.Keys(es)
  }

  /** The pending books the merge appends: each one whose key is neither in `seen` nor on an earlier appended book. */
  function NewPending(seen: set<string>, ps: seq<Edition>): seq<Edition>
    decreases |ps|
  {
    if ps == [] then []
    else if ListFile.BookKey(ps[0]) in seen then NewPending(seen, ps[1..])
    else [ps[0]] + NewPending(seen + {ListFile.BookKey(ps[0])}, ps[1..])
  }

  /** The work list after merging the ledger's pending books into the list file's picks. */
  function Merge(work: seq<Edition>, pending: seq<Edition>): seq<Edition> {
    work + NewPending(KeySet(work), pending)
  }

  /** The merge loop of `main`: appends each pending book whose key is not yet in the list. */
  method MergePending(work: seq<Edition>, pending: seq<Edition>) returns (merged: seq<Edition>)
    ensures merged == Merge(work, pending)
  {
    merged := work;
    var existingKeys := KeySet(work);
    for j := 0 to |pending|
      invariant merged + NewPending(existingKeys, pending[j..]) == Merge(work, pending)
    {
      var book := pending[j];
      var bookKey := ListFile.BookKey(book);
      assert pending[j..][1..] == pending[j + 1..];
      if bookKey !in existingKeys {
        merged := merged + [book];
        existingKeys := existingKeys + {bookKey};
      }
    }
  }

  /** The appended books come from the pending list in order. */
  lemma {:induction false} NewPendingSubseq(seen: set<string>, ps: seq<Edition>)
    ensures IsSubseq(NewPending(seen, ps), ps)
    decreases |ps|
  {
    if ps != [] {
      var k := ListFile.BookKey(ps[0]);
      if k in seen {
        NewPendingSubseq(seen, ps[1..]);
      } else {
        NewPendingSubseq(seen + {k}, ps[1..]);
        assert NewPending(seen, ps)[1..] == NewPending(seen + {k}, ps[1..]);
      }
    }
  }

  /** The appended books have keys outside `seen`, no two alike. */
  lemma {:induction false} NewPendingFresh(seen: set<string>, ps: seq<Edition>)
    ensures forall i :: 0 <= i < |NewPending(seen, ps)| ==> ListFile.BookKey(NewPending(seen, ps)[i]) !in seen
    ensures Distinct(ListFile.Keys(NewPending(seen, ps)))
    decreases |ps|
  {
    if ps != [] {
      var k := ListFile.BookKey(ps[0]);
      if k in seen {
        NewPendingFresh(seen, ps[1..]);
      } else {
        var rest := NewPending(seen + {k}, ps[1..]);
        NewPendingFresh(seen + {k}, ps[1..]);
        assert NewPending(seen, ps) == [ps[0]] + rest;
      }
    }
  }

  /** `ps[j]` is the first entry of `ps` with its key. */
  predicate FirstOfKey(ps: seq<Edition>, j: nat)
    requires j < |ps|
  {
    forall k :: 0 <= k < j ==> ListFile.BookKey(ps[k]) != ListFile.BookKey(ps[j])
  }

  /** `e` is the first entry of `ps` with its key. */
  predicate FirstEntry(ps: seq<Edition>, e: Edition) {
    exists j :: 0 <= j < |ps| && ps[j] == e && FirstOfKey(ps, j)
  }

  /** Each appended book is the first pending entry with its key. */
  lemma {:induction false} NewPendingFirst(seen: set<string>, ps: seq<Edition>)
    ensures forall i :: 0 <= i < |NewPending(seen, ps)| ==> FirstEntry(ps, NewPending(seen, ps)[i])
    decreases |ps|
  {
    if ps != [] {
      var k0 := ListFile.BookKey(ps[0]);
      var seen' := if k0 in seen then seen else seen + {k0};
      var rest := NewPending(seen', ps[1..]);
      NewPendingFirst(seen', ps[1..]);
      NewPendingFresh(seen', ps[1..]);
      var out := NewPending(seen, ps);
      assert out == if k0 in seen then rest else [ps[0]] + rest;
      var off := if k0 in seen then 0 else 1;
      forall i | 0 <= i < |out| ensures FirstEntry(ps, out[i]) {
        if i < off {
          assert ps[0] == out[i] && FirstOfKey(ps, 0);
        } else {
          assert out[i] == rest[i - off];
          assert FirstEntry(ps[1..], rest[i - off]);
          var j' :| 0 <= j' < |ps[1..]| && ps[1..][j'] == rest[i - off] && FirstOfKey(ps[1..], j');
          assert ListFile.BookKey(rest[i - off]) !in seen';
          assert ps[j' + 1] == out[i];
          forall k | 0 <= k < j' + 1 ensures ListFile.BookKey(ps[k]) != ListFile.BookKey(ps[j' + 1]) {
            if k > 0 { assert ps[k] == ps[1..][k - 1]; }
          }
          assert FirstOfKey(ps, j' + 1);
        }
      }
    }
  }

  /** Every pending book's key is seen already or is the key of an appended book. */
  lemma {:induction false} NewPendingCovers(seen: set<string>, ps: seq<Edition>)
    ensures forall i :: 0 <= i < |ps| ==>
      ListFile.BookKey(ps[i]) in seen || ListFile.BookKey(ps[i]) in ListFile.Keys(NewPending(seen, ps))
    decreases |ps|
  {
    if ps != [] {
      var k := ListFile.BookKey(ps[0]);
      if k in seen {
        NewPendingCovers(seen, ps[1..]);
        assert forall i :: 1 <= i < |ps| ==> ps[i] == ps[1..][i - 1];
      } else {
        var rest := NewPending(seen + {k}, ps[1..]);
        NewPendingCovers(seen + {k}, ps[1..]);
        assert NewPending(seen, ps) == [ps[0]] + rest;
        forall i | 0 <= i < |ps|
          ensures ListFile.BookKey(ps[i]) in seen || ListFile.BookKey(ps[i]) in ListFile.Keys(NewPending(seen, ps))
        {
          var key := ListFile.BookKey(ps[i]);
          if key == k {
            assert ListFile.Keys(NewPending(seen, ps))[0] == k;
          } else if key !in seen {
            assert ps[i] == ps[1..][i - 1];
            var j :| 0 <= j < |rest| && ListFile.Keys(rest)[j] == key;
            assert ListFile.Keys(NewPending(seen, ps))[j + 1] == key;
          }
        }
      }
    }
  }

  /** Nothing is appended when every pending key is already seen. */
  lemma {:induction false} NewPendingAllSeen(seen: set<string>, ps: seq<Edition>)
    requires forall i :: 0 <= i < |ps| ==> ListFile.BookKey(ps[i]) in seen
    ensures NewPending(seen, ps) == []
  {
    if ps != [] {
      assert forall i :: 0 <= i < |ps[1..]| ==> ps[1..][i] == ps[i + 1];
      NewPendingAllSeen(seen, ps[1..]);
    }
  }

  lemma KeySetMembers(es: seq<Edition>, k: string)
    ensures k in KeySet(es) <==> k in ListFile.Keys(es)
  {
  }

  /**
   * The merge keeps the list file's picks in front and appends only pending books, in their order,
   * whose keys are new; each appended key once, taken from its first pending entry.
   */
  lemma MergeAppends(work: seq<Edition>, pending: seq<Edition>)
    ensures var m := Merge(work, pending);
      && work <= m
      && IsSubseq(m[|work|..], pending)
      && (forall i :: |work| <= i < |m| ==> ListFile.BookKey(m[i]) !in ListFile.Keys(work))
      && Distinct(ListFile.Keys(m[|work|..]))
      && (forall i :: |work| <= i < |m| ==> FirstEntry(pending, m[i]))
  {
    var seen := KeySet(work);
    var m := Merge(work, pending);
    var added := NewPending(seen, pending);
    assert m[|work|..] == added;
    NewPendingSubseq(seen, pending);
    NewPendingFresh(seen, pending);
    NewPendingFirst(seen, pending);
    forall i | |work| <= i < |m| ensures FirstEntry(pending, m[i]) {
      assert m[i] == added[i - |work|];
    }
  }

  /** The merge leaves no pending key out. */
  lemma MergeCovers(work: seq<Edition>, pending: seq<Edition>)
    ensures forall i :: 0 <= i < |pending| ==>
      ListFile.BookKey(pending[i]) in ListFile.Keys(Merge(work, pending))
  {
    var seen := KeySet(work);
    var added := NewPending(seen, pending);
    NewPendingCovers(seen, pending);
    forall i | 0 <= i < |pending| ensures ListFile.BookKey(pending[i]) in ListFile.Keys(work + added) {
      var key := ListFile.BookKey(pending[i]);
      KeySetMembers(work, key);
      if key in ListFile.Keys(work) {
        MapMembersConcat(work, added, key, true);
      } else {
        MapMembersConcat(work, added, key, false);
      }
    }
  }

  /** A key of either part is a key of the concatenation. */
  lemma MapMembersConcat(a: seq<Edition>, b: seq<Edition>, key: string, inFront: bool)
    requires if inFront then key in ListFile.Keys(a) else key in ListFile.Keys(b)
    ensures key in ListFile.Keys(a + b)
  {
    if inFront {
      var j :| 0 <= j < |a| && ListFile.Keys(a)[j] == key;
      assert ListFile.Keys(a + b)[j] == key;
    } else {
      var j :| 0 <= j < |b| && ListFile.Keys(b)[j] == key;
      assert ListFile.Keys(a + b)[|a| + j] == key;
    }
  }

  /** When the picks have distinct keys, so does the merged list. */
  lemma MergeDistinct(work: seq<Edition>, pending: seq<Edition>)
    requires Distinct(ListFile.Keys(work))
    ensures Distinct(ListFile.Keys(Merge(work, pending)))
  {
    var seen := KeySet(work);
    var added := NewPending(seen, pending);
    NewPendingFresh(seen, pending);
    assert ListFile.Keys(work + added) == ListFile.Keys(work) + ListFile.Keys(added);
    forall i, j | 0 <= i < |work| && 0 <= j < |added|
      ensures ListFile.Keys(work)[i] != ListFile.Keys(added)[j]
    {
      KeySetMembers(work, ListFile.Keys(work)[i]);
    }
    DistinctConcat(ListFile.Keys(work), ListFile.Keys(added));
  }

  /** Merging the same pending list twice is merging it once. */
  lemma MergeIdempotent(work: seq<Edition>, pending: seq<Edition>)
    ensures Merge(Merge(work, pending), pending) == Merge(work, pending)
  {
    var m := Merge(work, pending);
    MergeCovers(work, pending);
    forall i | 0 <= i < |pending| ensures ListFile.BookKey(pending[i]) in KeySet(m) {
      KeySetMembers(m, ListFile.BookKey(pending[i]));
    }
    NewPendingAllSeen(KeySet(m), pending);
  }

  /** `[b for b in books_to_download if b['id'] not in downloaded_ids]`. */
  function WithoutDownloaded(work: seq<Edition>, downloaded: seq<Edition>): seq<Edition> {
    Filter(work, (b: Edition) => b.id !in ListFile.Ids(downloaded))
  }

  /** The filter keeps exactly the books whose id was never downloaded, in their order. */
  lemma WithoutDownloadedSpec(work: seq<Edition>, downloaded: seq<Edition>)
    ensures forall e :: e in WithoutDownloaded(work, downloaded) <==> e in work && e.id !in ListFile.Ids(downloaded)
    ensures IsSubseq(WithoutDownloaded(work, downloaded), work)
  {
    var p := (b: Edition) => b.id !in ListFile.Ids(downloaded);
    FilterIsSubseq(work, p);
    forall e ensures e in Filter(work, p) <==> e in work && p(e) {
      FilterMembers(work, p, e);
    }
  }

  /**
   * What `main` hands to the download loop: nothing when the list file has no picks; otherwise
   * the picks, merged with the pending books unless forced, without the downloaded ids unless forced.
   */
  function Worklist(parsed: seq<Edition>, d: StateDocument, force: bool): seq<Edition> {
    if parsed == [] then []
    else
      var merged := if !force && |d.pending| > 0 then Merge(parsed, d.pending) else parsed;
      if force then merged else WithoutDownloaded(merged, d.downloaded)
  }

  /** Unless forced, the work list comes from the picks and the pending books and holds no downloaded id. */
  lemma WorklistSkipsDownloaded(parsed: seq<Edition>, d: StateDocument, e: Edition)
    requires e in Worklist(parsed, d, false)
    ensures e.id !in ListFile.Ids(d.downloaded)
    ensures e in parsed || e in d.pending
  {
    var merged := if |d.pending| > 0 then Merge(parsed, d.pending) else parsed;
    WithoutDownloadedSpec(merged, d.downloaded);
    if |d.pending| > 0 && e !in parsed {
      MergeAppends(parsed, d.pending);
      var i :| 0 <= i < |merged| && merged[i] == e;
      assert merged[i] in merged[|parsed|..];
      SubseqMembers(merged[|parsed|..], d.pending, e);
    }
  }

  /**
   * Unless forced, a pending book of an earlier run whose id is not downloaded is resumed: a
   * book with its key is on the work list (ids without '_' make the key decide the id).
   */
  lemma WorklistResumesPending(parsed: seq<Edition>, d: StateDocument, p: Edition)
    requires parsed != [] && p in d.pending
    requires ListFile.PlainIds(parsed) && ListFile.PlainIds(d.pending)
    requires p.id !in ListFile.Ids(d.downloaded)
    ensures exists e :: e in Worklist(parsed, d, false) && ListFile.BookKey(e) == ListFile.BookKey(p)
  {
    var merged := Merge(parsed, d.pending);
    MergeAppends(parsed, d.pending);
    MergeCovers(parsed, d.pending);
    var i :| 0 <= i < |d.pending| && d.pending[i] == p;
    var j :| 0 <= j < |merged| && ListFile.Keys(merged)[j] == ListFile.BookKey(p);
    var e := merged[j];
    assert '_' !in e.id by {
      if j < |parsed| {
        assert e == parsed[j];
      } else {
        assert e in merged[|parsed|..];
        SubseqMembers(merged[|parsed|..], d.pending, e);
        var k :| 0 <= k < |d.pending| && d.pending[k] == e;
      }
    }
    ListFile.KeyInjective(e, p);
    WithoutDownloadedSpec(merged, d.downloaded);
    assert e in Worklist(parsed, d, false);
  }

  // ===================== the download loop =====================

  /** The run's counters `downloaded_count`, `pending_count` and `failed_count`. */
  datatype Tally = Tally(downloaded: nat, pending: nat, failed: nat)

  /** `download_book`'s result for each book of the work list. */
  function Outcomes(server: nat -> Reply): nat -> Outcome {
    (i: nat) => DownloadBook(server(i))
  }

  /** `add_pending` for each of `items`, in order. */
  function PendAll(d: StateDocument, items: seq<Edition>): StateDocument
    decreases |items|
  {
    if items == [] then d
    else Ledger.RecordPending(PendAll(d, items[..|items| - 1]), items[|items| - 1])
  }

  /**
   * The loop from the i-th book on: once the successes reach the quota every remaining book is
   * pended and the run ends; a success is recorded and counted; a limit answer pends the book
   * and ends the run; any other failure is recorded with its message and the run goes on.
   */
  function RunFrom(d: StateDocument, work: seq<Edition>, i: nat, left: int, t: Tally, outcomes: nat -> Outcome): (StateDocument, Tally)
    requires i <= |work|
    decreases |work| - i
  {
    if i == |work| then (d, t)
    else if t.downloaded >= left then (PendAll(d, work[i..]), t)
    else
      var o := outcomes(i);
      if o.success then
        RunFrom(Ledger.RecordSuccess(d, work[i]), work, i + 1, left, t.(downloaded := t.downloaded + 1), outcomes)
      else if o.result == LimitReached then
        (Ledger.RecordPending(d, work[i]), t.(pending := t.pending + 1))
      else
        RunFrom(Ledger.RecordFailure(d, work[i], o.message), work, i + 1, left, t.(failed := t.failed + 1), outcomes)
  }

  /**
   * The two ways the loop stops early at the i-th book. Once the successes reach the quota, this
   * book and every later one are pended and the counters stay. A limit answer pends only this book,
   * counts it as pending and ends the run, so no later book gets recorded.
   */
  lemma RunStops(d: StateDocument, work: seq<Edition>, i: nat, left: int, t: Tally, outcomes: nat -> Outcome)
    requires i < |work|
    ensures var r := RunFrom(d, work, i, left, t, outcomes);
      t.downloaded >= left ==> r.1 == t && PendedAll(d, work[i..], r.0)
    ensures var r := RunFrom(d, work, i, left, t, outcomes);
      t.downloaded < left && !outcomes(i).success && outcomes(i).result == LimitReached ==>
        r == (Ledger.RecordPending(d, work[i]), t.(pending := t.pending + 1))
    ensures forall key ::
      (&& t.downloaded < left && !outcomes(i).success && outcomes(i).result == LimitReached
       && !Recorded(d, key) && key != ListFile.BookKey(work[i]))
      ==> !Recorded(RunFrom(d, work, i, left, t, outcomes).0, key)
  {
    if t.downloaded >= left {
      PendAllSpec(d, work[i..]);
    } else if !outcomes(i).success && outcomes(i).result == LimitReached {
      forall key | !Recorded(d, key) && key != ListFile.BookKey(work[i])
        ensures !Recorded(Ledger.RecordPending(d, work[i]), key)
      {
        PendingAddsOnlyItsKey(d, work[i], key);
      }
    }
  }

  /** `add_pending` records no key but the book's own. */
  lemma PendingAddsOnlyItsKey(d: StateDocument, b: Edition, key: string)
    requires !Recorded(d, key) && key != ListFile.BookKey(b)
    ensures !Recorded(Ledger.RecordPending(d, b), key)
  {
    if ListFile.BookKey(b) !in ListFile.Keys(d.pending) {
      Ledger.KeysSnoc(d.pending, b);
    }
  }

  /** The download loop of `main`, updating the ledger object as it goes. */
  method DownloadAll(state: Ledger.DownloadState, work: seq<Edition>, left: int, server: nat -> Reply) returns (t: Tally)
    modifies state
    ensures (state.Document(), t) == RunFrom(old(state.Document()), work, 0, left, Tally(0, 0, 0), Outcomes(server))
  {
    ghost var outcomes := Outcomes(server);
    ghost var run := RunFrom(state.Document(), work, 0, left, Tally(0, 0, 0), outcomes);
    t := Tally(0, 0, 0);
    var idx := 0;
    while idx < |work|
      invariant 0 <= idx <= |work|
      invariant RunFrom(state.Document(), work, idx, left, t, outcomes) == run
    {
      if t.downloaded >= left {
        PendRemaining(state, work[idx..]);
        return;
      }
      var book := work[idx];
      var outcome := DownloadBook(server(idx));
      assert outcome == outcomes(idx);
      if outcome.success {
        state.AddDownloaded(book);
        t := t.(downloaded := t.downloaded + 1);
      } else if outcome.result == LimitReached {
        state.AddPending(book);
        t := t.(pending := t.pending + 1);
        return;
      } else {
        state.AddFailed(book, outcome.message);
        t := t.(failed := t.failed + 1);
      }
      idx := idx + 1;
    }
  }

  /** The quota branch's loop: `add_pending` for each remaining book. */
  method PendRemaining(state: Ledger.DownloadState, remainingBooks: seq<Edition>)
    modifies state
    ensures state.Document() == PendAll(old(state.Document()), remainingBooks)
  {
    for k := 0 to |remainingBooks|
      invariant state.Document() == PendAll(old(state.Document()), remainingBooks[..k])
    {
      assert remainingBooks[..k + 1][..k] == remainingBooks[..k];
      state.AddPending(remainingBooks[k]);
    }
    assert remainingBooks[..|remainingBooks|] == remainingBooks;
  }

  /**
   * `r` is `d` after pending `items`: the old pending list is still in front, every key of `items`
   * is pending, nothing else was added, the other lists are untouched and unique keys stay unique.
   */
  predicate PendedAll(d: StateDocument, items: seq<Edition>, r: StateDocument) {
    && d.pending <= r.pending
    && (forall i :: 0 <= i < |items| ==> ListFile.BookKey(items[i]) in ListFile.Keys(r.pending))
    && (forall e :: e in r.pending ==> e in d.pending || e in items)
    && r.downloaded == d.downloaded && r.failed == d.failed
    && (Distinct(ListFile.Keys(d.pending)) ==> Distinct(ListFile.Keys(r.pending)))
  }

  /** After pending a list of books, every one of their keys is pending, the old pending list is still in front and nothing else changed. */
  lemma {:induction false} PendAllSpec(d: StateDocument, items: seq<Edition>)
    ensures PendedAll(d, items, PendAll(d, items))
    decreases |items|
  {
    if items != [] {
      var init := items[..|items| - 1];
      var last := items[|items| - 1];
      PendAllSpec(d, init);
      assert items == init + [last];
      PendOneMore(d, init, last, PendAll(d, init));
    }
  }

  /** Pending one more book after a list keeps the description of the list's pending. */
  lemma PendOneMore(d: StateDocument, init: seq<Edition>, last: Edition, mid: StateDocument)
    requires PendedAll(d, init, mid)
    ensures PendedAll(d, init + [last], Ledger.RecordPending(mid, last))
  {
    var items := init + [last];
    var r := Ledger.RecordPending(mid, last);
    Ledger.PendingGrowth(mid, last);
    if Distinct(ListFile.Keys(d.pending)) {
      Ledger.PendingKeysUnique(mid, last);
    }
    forall i | 0 <= i < |items| ensures ListFile.BookKey(items[i]) in ListFile.Keys(r.pending) {
      if i < |init| {
        assert items[i] == init[i];
        ListFile.MapPrefix(ListFile.BookKey, mid.pending, r.pending);
        ListFile.PrefixMembers(ListFile.Keys(mid.pending), ListFile.Keys(r.pending), ListFile.BookKey(items[i]));
      }
    }
    forall e | e in r.pending ensures e in d.pending || e in items {
      if e in mid.pending {
        if e !in d.pending {
          assert e in init;
        }
      } else {
        assert r.pending == mid.pending + [last];
      }
    }
  }

  /** The run records at most `left` successes (none when the quota is already used up). */
  lemma {:induction false} RunQuota(d: StateDocument, work: seq<Edition>, i: nat, left: int, t: Tally, outcomes: nat -> Outcome)
    requires i <= |work|
    ensures var r := RunFrom(d, work, i, left, t, outcomes);
      r.1.downloaded <= if t.downloaded > left then t.downloaded else left
    decreases |work| - i
  {
    if i < |work| && t.downloaded < left {
      var o := outcomes(i);
      if o.success {
        RunQuota(Ledger.RecordSuccess(d, work[i]), work, i + 1, left, t.(downloaded := t.downloaded + 1), outcomes);
      } else if o.result != LimitReached {
        RunQuota(Ledger.RecordFailure(d, work[i], o.message), work, i + 1, left, t.(failed := t.failed + 1), outcomes);
      }
    }
  }

  /**
   * Each book is counted at most once and the counters only grow; `pending_count` counts only
   * the book that met the limit, never the books pended because the quota was used up.
   */
  lemma {:induction false} RunTally(d: StateDocument, work: seq<Edition>, i: nat, left: int, t: Tally, outcomes: nat -> Outcome)
    requires i <= |work|
    ensures var r := RunFrom(d, work, i, left, t, outcomes).1;
      && t.downloaded <= r.downloaded && t.failed <= r.failed
      && t.pending <= r.pending <= t.pending + 1
      && r.downloaded + r.failed + r.pending <= t.downloaded + t.failed + t.pending + (|work| - i)
    decreases |work| - i
  {
    if i < |work| && t.downloaded < left {
      var o := outcomes(i);
      if o.success {
        var next := t.(downloaded := t.downloaded + 1);
        RunTally(Ledger.RecordSuccess(d, work[i]), work, i + 1, left, next, outcomes);
        assert RunFrom(d, work, i, left, t, outcomes) == RunFrom(Ledger.RecordSuccess(d, work[i]), work, i + 1, left, next, outcomes);
      } else if o.result != LimitReached {
        var next := t.(failed := t.failed + 1);
        RunTally(Ledger.RecordFailure(d, work[i], o.message), work, i + 1, left, next, outcomes);
        assert RunFrom(d, work, i, left, t, outcomes) == RunFrom(Ledger.RecordFailure(d, work[i], o.message), work, i + 1, left, next, outcomes);
      }
    }
  }

  /** The ledger knows `key`: downloaded, pending or failed. */
  predicate Recorded(d: StateDocument, key: string) {
    key in ListFile.Keys(d.downloaded) || key in ListFile.Keys(d.pending) || key in Ledger.FailedKeys(d.failed)
  }

  /** A success can drop a key from `pending` only by downloading it. */
  lemma SuccessRecords(d: StateDocument, b: Edition, key: string)
    ensures Recorded(d, key) ==> Recorded(Ledger.RecordSuccess(d, b), key)
    ensures Recorded(Ledger.RecordSuccess(d, b), ListFile.BookKey(b))
  {
    var r := Ledger.RecordSuccess(d, b);
    Ledger.SuccessClearsPending(d, b);
    if key in ListFile.Keys(d.downloaded) {
      ListFile.MapPrefix(ListFile.BookKey, d.downloaded, r.downloaded);
      ListFile.PrefixMembers(ListFile.Keys(d.downloaded), ListFile.Keys(r.downloaded), key);
    }
    if key in ListFile.Keys(d.pending) && key != ListFile.BookKey(b) {
      var i :| 0 <= i < |d.pending| && ListFile.Keys(d.pending)[i] == key;
      ListFile.MapMembers(ListFile.BookKey, r.pending, d.pending[i]);
    }
  }

  lemma PendingRecords(d: StateDocument, b: Edition, key: string)
    ensures Recorded(d, key) ==> Recorded(Ledger.RecordPending(d, b), key)
    ensures Recorded(Ledger.RecordPending(d, b), ListFile.BookKey(b))
  {
    var r := Ledger.RecordPending(d, b);
    Ledger.PendingGrowth(d, b);
    if key in ListFile.Keys(d.pending) {
      ListFile.MapPrefix(ListFile.BookKey, d.pending, r.pending);
      ListFile.PrefixMembers(ListFile.Keys(d.pending), ListFile.Keys(r.pending), key);
    }
  }

  lemma FailureRecords(d: StateDocument, b: Edition, reason: string, key: string)
    ensures Recorded(d, key) ==> Recorded(Ledger.RecordFailure(d, b, reason), key)
    ensures Recorded(Ledger.RecordFailure(d, b, reason), ListFile.BookKey(b))
  {
    Ledger.FailureKeys(d, b, reason);
  }

  /** Pending a list of books forgets no key. */
  lemma PendAllKeeps(d: StateDocument, items: seq<Edition>, key: string)
    requires Recorded(d, key)
    ensures Recorded(PendAll(d, items), key)
  {
    var r := PendAll(d, items);
    PendAllSpec(d, items);
    if key in ListFile.Keys(d.pending) {
      ListFile.MapPrefix(ListFile.BookKey, d.pending, r.pending);
      ListFile.PrefixMembers(ListFile.Keys(d.pending), ListFile.Keys(r.pending), key);
    }
  }

  /** Pending a list of books records each of their keys. */
  lemma PendAllHas(d: StateDocument, items: seq<Edition>, j: nat)
    requires j < |items|
    ensures Recorded(PendAll(d, items), ListFile.BookKey(items[j]))
  {
    PendAllSpec(d, items);
  }

  /** The run forgets no key the ledger knew. */
  lemma {:induction false} RunKeepsKey(d: StateDocument, work: seq<Edition>, i: nat, left: int, t: Tally, outcomes: nat -> Outcome, key: string)
    requires i <= |work| && Recorded(d, key)
    ensures Recorded(RunFrom(d, work, i, left, t, outcomes).0, key)
    decreases |work| - i
  {
    if i < |work| {
      if t.downloaded >= left {
        PendAllKeeps(d, work[i..], key);
      } else {
        var o := outcomes(i);
        if o.success {
          SuccessRecords(d, work[i], key);
          RunKeepsKey(Ledger.RecordSuccess(d, work[i]), work, i + 1, left, t.(downloaded := t.downloaded + 1), outcomes, key);
        } else if o.result == LimitReached {
          PendingRecords(d, work[i], key);
        } else {
          FailureRecords(d, work[i], o.message, key);
          RunKeepsKey(Ledger.RecordFailure(d, work[i], o.message), work, i + 1, left, t.(failed := t.failed + 1), outcomes, key);
        }
      }
    }
  }

  /** Unless the run stopped on a limit answer, the j-th book ends up downloaded, pending or failed. */
  lemma {:induction false} RunRecordsBook(d: StateDocument, work: seq<Edition>, i: nat, left: int, t: Tally, outcomes: nat -> Outcome, j: nat)
    requires i <= j < |work|
    ensures var r := RunFrom(d, work, i, left, t, outcomes);
      r.1.pending == t.pending ==> Recorded(r.0, ListFile.BookKey(work[j]))
    decreases |work| - i
  {
    var key := ListFile.BookKey(work[j]);
    if t.downloaded >= left {
      PendAllHas(d, work[i..], j - i);
      assert work[i..][j - i] == work[j];
    } else {
      var o := outcomes(i);
      if o.success {
        var next := Ledger.RecordSuccess(d, work[i]);
        var t' := t.(downloaded := t.downloaded + 1);
        if j == i {
          SuccessRecords(d, work[i], key);
          RunKeepsKey(next, work, i + 1, left, t', outcomes, key);
        } else {
          RunRecordsBook(next, work, i + 1, left, t', outcomes, j);
        }
      } else if o.result != LimitReached {
        var next := Ledger.RecordFailure(d, work[i], o.message);
        var t' := t.(failed := t.failed + 1);
        if j == i {
          FailureRecords(d, work[i], o.message, key);
          RunKeepsKey(next, work, i + 1, left, t', outcomes, key);
        } else {
          RunRecordsBook(next, work, i + 1, left, t', outcomes, j);
        }
      }
    }
  }

  /**
   * The run forgets no key the ledger knew, and unless it stopped on a limit answer every book
   * from the i-th on ends up downloaded, pending or failed.
   */
  lemma RunRecords(d: StateDocument, work: seq<Edition>, i: nat, left: int, t: Tally, outcomes: nat -> Outcome)
    requires i <= |work|
    ensures var r := RunFrom(d, work, i, left, t, outcomes);
      && (forall k :: Recorded(d, k) ==> Recorded(r.0, k))
      && (r.1.pending == t.pending ==> forall j :: i <= j < |work| ==> Recorded(r.0, ListFile.BookKey(work[j])))
  {
    forall k | Recorded(d, k) ensures Recorded(RunFrom(d, work, i, left, t, outcomes).0, k) {
      RunKeepsKey(d, work, i, left, t, outcomes, k);
    }
    forall j | i <= j < |work| ensures var r := RunFrom(d, work, i, left, t, outcomes);
      r.1.pending == t.pending ==> Recorded(r.0, ListFile.BookKey(work[j])) {
      RunRecordsBook(d, work, i, left, t, outcomes, j);
    }
  }



  /** No key twice in any of the ledger's three lists. */
  predicate UniqueKeys(d: StateDocument) {
    Distinct(ListFile.Keys(d.downloaded)) && Distinct(ListFile.Keys(d.pending)) && Distinct(Ledger.FailedKeys(d.failed))
  }

  lemma SuccessKeepsUnique(d: StateDocument, b: Edition)
    requires UniqueKeys(d)
    ensures UniqueKeys(Ledger.RecordSuccess(d, b))
  {
    var key := ListFile.BookKey(b);
    var p := (e: Edition) => ListFile.BookKey(e) != key;
    Ledger.DownloadedKeysUnique(d, b);
    FilterIsSubseq(d.pending, p);
    SubseqMap(ListFile.BookKey, Filter(d.pending, p), d.pending);
    SubseqDistinct(ListFile.Keys(Filter(d.pending, p)), ListFile.Keys(d.pending));
  }

  /** A run started on a ledger whose lists have unique keys leaves them unique. */
  lemma {:induction false} RunKeepsUnique(d: StateDocument, work: seq<Edition>, i: nat, left: int, t: Tally, outcomes: nat -> Outcome)
    requires i <= |work| && UniqueKeys(d)
    ensures UniqueKeys(RunFrom(d, work, i, left, t, outcomes).0)
    decreases |work| - i
  {
    if i < |work| {
      if t.downloaded >= left {
        PendAllSpec(d, work[i..]);
      } else {
        var o := outcomes(i);
        if o.success {
          SuccessKeepsUnique(d, work[i]);
          RunKeepsUnique(Ledger.RecordSuccess(d, work[i]), work, i + 1, left, t.(downloaded := t.downloaded + 1), outcomes);
        } else if o.result == LimitReached {
          Ledger.PendingKeysUnique(d, work[i]);
        } else {
          Ledger.FailedKeysUnique(d, work[i], o.message);
          RunKeepsUnique(Ledger.RecordFailure(d, work[i], o.message), work, i + 1, left, t.(failed := t.failed + 1), outcomes);
        }
      }
    }
  }

  // ===================== one session =====================

  /**
   * `main` after login and parsing: `parsed` is what `parse_list_file` returned, `force` and
   * `dryRun` are the command-line flags, `left` the quota reported at login.
   */
  method RunSession(state: Ledger.DownloadState, parsed: seq<Edition>, force: bool, dryRun: bool,
                    left: int, server: nat -> Reply)
    returns (work: seq<Edition>, t: Tally)
    modifies state
    ensures work == Worklist(parsed, old(state.Document()), force)
    ensures (state.Document(), t) ==
      if work == [] || dryRun then (old(state.Document()), Tally(0, 0, 0))
      else RunFrom(old(state.Document()), work, 0, left, Tally(0, 0, 0), Outcomes(server))
  {
    t := Tally(0, 0, 0);
    work := parsed;
    if work == [] {
      return;
    }
    if !force && state.PendingCount() > 0 {
      work := MergePending(work, state.pending);
    }
    if !force {
      work := WithoutDownloaded(work, state.downloaded);
    }
    if work == [] || dryRun {
      return;
    }
    t := DownloadAll(state, work, left, server);
  }
}
