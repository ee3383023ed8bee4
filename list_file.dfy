/**
 * The list-file reader of the downloader (`parse_list_file` in batch_download.py): a line scanner
 * that cuts the saved search report into version blocks, the grouping of versions by title, and
 * the selection of what to download (a `v`-marked version first, else the only version).
 * Also proves that reading back the version blocks the search side writes recovers the editions.
 */
module ListFile {
  import opened Maybe
  import opened Text
  import opened Seqs
  import BatchSearch

  /** One edition to download: id and hash, and the descriptive fields its block carried. */
  datatype Edition = Edition(
    id: string, hash: string, title: Option<string>, author: Option<string>,
    publisher: Option<string>, year: Option<string>, language: Option<string>)

  /** `f"{id}_{hash}"`, the identity of an edition in the marked set and in the ledger. */
  function BookKey(e: Edition): string {
    e.id + "_" + e.hash
  }

  function Keys(es: seq<Edition>): seq<string> {
    Map(BookKey, es)
  }

  function Ids(es: seq<Edition>): seq<string> {
    Map((e: Edition) => e.id, es)
  }

  /** No id contains '_', so a key splits back into id and hash. */
  predicate PlainIds(es: seq<Edition>) {
    forall i :: 0 <= i < |es| ==> '_' !in es[i].id
  }

  /** Index of the first `c` in `s`, or |s| when there is none. */
  function IndexOf(s: string, c: char): nat {
    if s == [] || s[0] == c then 0 else 1 + IndexOf(s[1..], c)
  }

  lemma {:induction false} IndexOfAfter(x: string, c: char, y: string)
    requires c !in x
    ensures IndexOf(x + [c] + y, c) == |x|
  {
    if x != [] {
      assert (x + [c] + y)[1..] == x[1..] + [c] + y;
      IndexOfAfter(x[1..], c, y);
    }
  }

  /** Keys of editions whose ids have no '_' are equal only for equal ids and hashes. */
  lemma KeyInjective(a: Edition, b: Edition)
    requires '_' !in a.id && '_' !in b.id
    requires BookKey(a) == BookKey(b)
    ensures a.id == b.id && a.hash == b.hash
  {
    var ka, kb := BookKey(a), BookKey(b);
    assert ka == a.id + ['_'] + a.hash && kb == b.id + ['_'] + b.hash;
    IndexOfAfter(a.id, '_', a.hash);
    IndexOfAfter(b.id, '_', b.hash);
    assert a.id == ka[..|a.id|] && b.id == kb[..|b.id|];
    assert a.hash == ka[|a.id| + 1..] && b.hash == kb[|b.id| + 1..];
  }

  /** Without that restriction two different editions can share a key. */
  lemma KeyCollision()
    ensures BookKey(Edition("a_b", "c", None, None, None, None, None)) ==
      BookKey(Edition("a", "b_c", None, None, None, None, None))
  {
  }

  // ===================== line classification =====================

  /** Length of the longest run of ASCII digits at the start of `s` (`\d+` is greedy). */
  function DigitRun(s: string): (n: nat)
    ensures n <= |s| && AllDigits(s[..n])
    ensures n < |s| ==> !IsDigit(s[n])
  {
    if s == [] || !IsDigit(s[0]) then 0
    else
      var n := DigitRun(s[1..]);
      assert s[..n + 1] == [s[0]] + s[1..][..n];
      n + 1
  }

  /** `【版本\s*\d+】` matches at the start of `s`. */
  predicate VersionTag(s: string) {
    "【版本" <= s &&
    var rest := LStrip(s[3..]);
    var n := DigitRun(rest);
    0 < n < |rest| && rest[n] == '】'
  }

  /** `re.match(r'^\s*v\s*【版本\s*\d+】', s)`: a header the user marked for download. */
  predicate MarkedHeader(s: string) {
    var t := LStrip(s);
    t != [] && t[0] == 'v' && VersionTag(LStrip(t[1..]))
  }

  /** `re.match(r'^\s*【版本\s*\d+】', s)`: an unmarked header. */
  predicate PlainHeader(s: string) {
    VersionTag(LStrip(s))
  }

  datatype InfoField = TitleField | AuthorField | PublisherField | YearField | LanguageField | IdField | HashField

  /** `s.split(':', 1)[1].strip()` for a line that starts with a label of `n` characters ending in its only ':'. */
  function LabelValue(s: string, n: nat): string
    requires n <= |s|
  {
    Strip(s[n..])
  }

  /** The labels of the `startswith` chain, in the order the chain tests them. */
  const FieldLabels: seq<(string, InfoField)> := [
    ("书名:", TitleField), ("作者:", AuthorField), ("出版社:", PublisherField), ("年份:", YearField),
    ("语言:", LanguageField), ("ID:", IdField), ("Hash:", HashField)]

  /** The position of the first label from position `k` of the chain that starts `s`. */
  function MatchLabel(s: string, k: nat): (r: Option<nat>)
    requires k <= |FieldLabels|
    ensures r.Some? ==> k <= r.value < |FieldLabels| && FieldLabels[r.value].0 <= s
    decreases |FieldLabels| - k
  {
    if k == |FieldLabels| then None
    else if FieldLabels[k].0 <= s then Some(k)
    else MatchLabel(s, k + 1)
  }

  /** The `startswith` chain over a stripped line inside a block: which field it sets, and to what. */
  function FieldLineOf(s: string): Option<(InfoField, string)> {
    match MatchLabel(s, 0)
    case Some(j) => Some((FieldLabels[j].1, LabelValue(s, |FieldLabels[j].0|)))
    case None => None
  }

  /** Every label is at least two characters, starts with a character that is no space, no `v` and no `【`, and ends in ':'; no two start alike. */
  lemma LabelShapes()
    ensures forall j :: 0 <= j < |FieldLabels| ==>
      var name := FieldLabels[j].0;
      |name| > 1 && !IsSpace(name[0]) && name[0] != 'v' && name[0] != '【' && name[|name| - 1] == ':'
    ensures forall i, j :: 0 <= i < j < |FieldLabels| ==> FieldLabels[i].0[0] != FieldLabels[j].0[0]
  {
  }

  /** The labels the writer uses and the reader ignores start differently from every label it reads. */
  lemma UnknownLabels()
    ensures forall i :: 0 <= i < |FieldLabels| ==> FieldLabels[i].0[0] != "页数:"[0] && FieldLabels[i].0[0] != "文件大小:"[0]
  {
  }

  /** A line that starts with the `j`-th label and with no earlier label's first character matches at `j`. */
  lemma {:induction false} MatchLabelAt(s: string, k: nat, j: nat)
    requires k <= j < |FieldLabels| && FieldLabels[j].0 <= s
    requires forall i :: k <= i < j ==> FieldLabels[i].0[0] != s[0]
    ensures MatchLabel(s, k) == Some(j)
    decreases j - k
  {
    LabelShapes();
    if k < j {
      assert !(FieldLabels[k].0 <= s);
      MatchLabelAt(s, k + 1, j);
    }
  }

  /** A line whose first character starts no label from `k` on matches none of them. */
  lemma {:induction false} MatchLabelNone(s: string, k: nat)
    requires k <= |FieldLabels| && s != []
    requires forall i :: k <= i < |FieldLabels| ==> FieldLabels[i].0[0] != s[0]
    ensures MatchLabel(s, k) == None
    decreases |FieldLabels| - k
  {
    LabelShapes();
    if k < |FieldLabels| {
      assert !(FieldLabels[k].0 <= s);
      MatchLabelNone(s, k + 1);
    }
  }

  // ===================== the scanner =====================

  /** `current_book_info`: the keys a block has set so far. */
  datatype Info = Info(
    title: Option<string>, author: Option<string>, publisher: Option<string>, year: Option<string>,
    language: Option<string>, id: Option<string>, hash: Option<string>)

  const NoInfo := Info(None, None, None, None, None, None, None)

  function Record(info: Info, f: InfoField, v: string): Info {
    match f
    case TitleField => info.(title := Some(v))
    case AuthorField => info.(author := Some(v))
    case PublisherField => info.(publisher := Some(v))
    case YearField => info.(year := Some(v))
    case LanguageField => info.(language := Some(v))
    case IdField => info.(id := Some(v))
    case HashField => info.(hash := Some(v))
  }

  /** The scanner's variables: the collected fields, `in_version_block`, and the last header's mark. */
  datatype ScanState = ScanState(info: Info, inBlock: bool, marked: bool)

  const Start := ScanState(NoInfo, false, false)

  /** A completed version, with whether its header carried the `v` mark. */
  datatype Block = Block(edition: Edition, marked: bool)

  /** A `Hash:` line ends a block; it yields a version only when id and hash are both non-empty. */
  function Complete(info: Info, marked: bool): Option<Block> {
    if info.id.Some? && info.id.value != "" && info.hash.Some? && info.hash.value != "" then
      Some(Block(Edition(info.id.value, info.hash.value, info.title, info.author, info.publisher,
                         info.year, info.language), marked))
    else None
  }

  /** What one line is to the scanner. */
  datatype LineKind = Header(marked: bool) | FieldLine(field: InfoField, value: string) | OtherLine

  /**
   * The tests both passes apply to `line.strip()`: the marked-header pattern, the plain-header
   * pattern, then the label chain.
   */
  function Classify(line: string): LineKind {
    var s := Strip(line);
    if MarkedHeader(s) then Header(true)
    else if PlainHeader(s) then Header(false)
    else match FieldLineOf(s)
      case Some(fv) => FieldLine(fv.0, fv.1)
      case None => OtherLine
  }

  /**
   * One line of either pass: a header opens a block (keeping any fields already collected), a
   * field line inside a block records its value, and a `Hash:` line closes the block and resets.
   */
  function Step(st: ScanState, kind: LineKind): (ScanState, Option<Block>) {
    match kind
    case Header(m) => (st.(inBlock := true, marked := m), None)
    case OtherLine => (st, None)
    case FieldLine(f, v) =>
      if !st.inBlock then (st, None)
      else if f == HashField then (Start, Complete(Record(st.info, HashField, v), st.marked))
      else (st.(info := Record(st.info, f, v)), None)
  }

  function OptSeq<T>(o: Option<T>): seq<T> {
    match o
    case Some(x) => [x]
    case None => []
  }

  /** The versions completed while scanning lines of the given kinds from `st`, and the state afterwards. */
  function ScanFrom(kinds: seq<LineKind>, st: ScanState): (seq<Block>, ScanState) {
    if kinds == [] then ([], st)
    else
      var step := Step(st, kinds[0]);
      var rest := ScanFrom(kinds[1..], step.0);
      (OptSeq(step.1) + rest.0, rest.1)
  }

  /** Every version block of the file, in file order. */
  function Blocks(lines: seq<string>): seq<Block> {
    ScanFrom(Map(Classify, lines), Start).0
  }

  /** Scanning a concatenation is scanning the second part from where the first left off. */
  lemma {:induction false} ScanConcat(a: seq<LineKind>, b: seq<LineKind>, st: ScanState)
    ensures ScanFrom(a + b, st) ==
      (ScanFrom(a, st).0 + ScanFrom(b, ScanFrom(a, st).1).0, ScanFrom(b, ScanFrom(a, st).1).1)
    decreases |a|
  {
    if a == [] {
      assert a + b == b;
      assert ScanFrom(a, st) == ([], st);
      assert [] + ScanFrom(b, st).0 == ScanFrom(b, st).0;
    } else {
      var step := Step(st, a[0]);
      var ab := a + b;
      assert ab[0] == a[0] && ab[1..] == a[1..] + b;
      ScanConcat(a[1..], b, step.0);
      var ra := ScanFrom(a[1..], step.0);
      var rb := ScanFrom(b, ra.1);
      var head := OptSeq(step.1);
      assert ScanFrom(ab, st) == (head + ScanFrom(ab[1..], step.0).0, ScanFrom(ab[1..], step.0).1);
      assert ScanFrom(a, st) == (head + ra.0, ra.1);
      assert head + (ra.0 + rb.0) == (head + ra.0) + rb.0;
    }
  }

  lemma ScanSnoc(a: seq<LineKind>, kind: LineKind, st: ScanState)
    ensures ScanFrom(a + [kind], st) ==
      (ScanFrom(a, st).0 + OptSeq(Step(ScanFrom(a, st).1, kind).1), Step(ScanFrom(a, st).1, kind).0)
  {
    ScanConcat(a, [kind], st);
    var mid := ScanFrom(a, st).1;
    var step := Step(mid, kind);
    assert [kind][1..] == [];
    assert ScanFrom([kind], mid) == (OptSeq(step.1) + [], step.0);
    assert OptSeq(step.1) + [] == OptSeq(step.1);
  }

  /** The scan of the first `i` lines, given their kinds. */
  function ScanPrefix(kinds: seq<LineKind>, i: nat): (seq<Block>, ScanState)
    requires i <= |kinds|
  {
    ScanFrom(kinds[..i], Start)
  }

  /** One more line: the new scan is the old one stepped over that line's kind. */
  lemma ScanPrefixStep(kinds: seq<LineKind>, i: nat)
    requires i < |kinds|
    ensures ScanPrefix(kinds, i + 1) ==
      (ScanPrefix(kinds, i).0 + OptSeq(Step(ScanPrefix(kinds, i).1, kinds[i]).1), Step(ScanPrefix(kinds, i).1, kinds[i]).0)
  {
    assert kinds[..i + 1] == kinds[..i] + [kinds[i]];
    ScanSnoc(kinds[..i], kinds[i], Start);
  }

  lemma ScanPrefixAll(kinds: seq<LineKind>)
    ensures ScanPrefix(kinds, |kinds|) == ScanFrom(kinds, Start)
  {
    assert kinds[..|kinds|] == kinds;
  }

  lemma MapSnoc<A, B>(f: A -> B, s: seq<A>, x: A)
    ensures Map(f, s + [x]) == Map(f, s) + [f(x)]
  {
  }

  // ===================== grouping and selection =====================

  /** `current_book_info.get('title', 'unknown')`: a present empty title stays "". */
  function GroupTitle(e: Edition): string {
    e.title.GetOr("unknown")
  }

  /** The keys of `all_versions` in insertion order: each title once, where it first occurs. */
  function Titles(blocks: seq<Block>): (r: seq<string>)
    ensures Distinct(r)
    ensures forall t :: t in r <==> exists i :: 0 <= i < |blocks| && GroupTitle(blocks[i].edition) == t
  {
    if blocks == [] then []
    else
      var prefix := blocks[..|blocks| - 1];
      var t := GroupTitle(blocks[|blocks| - 1].edition);
      var before := Titles(prefix);
      assert forall i :: 0 <= i < |prefix| ==> prefix[i] == blocks[i];
      if t in before then before else before + [t]
  }

  /** `all_versions[title]`: the versions with that title, in file order. */
  function Versions(blocks: seq<Block>, title: string): seq<Edition> {
    if blocks == [] then []
    else
      var last := blocks[|blocks| - 1].edition;
      Versions(blocks[..|blocks| - 1], title) + (if GroupTitle(last) == title then [last] else [])
  }

  /** The keys of `marked_versions`. */
  function MarkedKeys(blocks: seq<Block>): set<string> {
    if blocks == [] then {}
    else
      var last := blocks[|blocks| - 1];
      MarkedKeys(blocks[..|blocks| - 1]) + (if last.marked then {BookKey(last.edition)} else {})
  }

  /** The index of the first version at or after `k` whose key is marked, or |vs| when there is none. */
  function FirstMarkedFrom(vs: seq<Edition>, marked: set<string>, k: nat): (r: nat)
    requires k <= |vs|
    ensures k <= r <= |vs|
    ensures r < |vs| ==> BookKey(vs[r]) in marked
    ensures forall j :: k <= j < r ==> BookKey(vs[j]) !in marked
    decreases |vs| - k
  {
    if k == |vs| || BookKey(vs[k]) in marked then k else FirstMarkedFrom(vs, marked, k + 1)
  }

  /**
   * The decision for one title: its first marked version unless that key is already chosen, else
   * its only version unless that id is already chosen, else nothing.
   */
  function SelectGroup(acc: seq<Edition>, vs: seq<Edition>, marked: set<string>): seq<Edition> {
    var k := FirstMarkedFrom(vs, marked, 0);
    if k < |vs| then
      (if BookKey(vs[k]) in Keys(acc) then acc else acc + [vs[k]])
    else if |vs| == 1 && vs[0].id !in Ids(acc) then acc + [vs[0]]
    else acc
  }

  function SelectOver(titles: seq<string>, blocks: seq<Block>, marked: set<string>): seq<Edition> {
    if titles == [] then []
    else SelectGroup(SelectOver(titles[..|titles| - 1], blocks, marked), Versions(blocks, titles[|titles| - 1]), marked)
  }

  /** `books_to_download` for the version blocks of a file. */
  function SelectTargets(blocks: seq<Block>): seq<Edition> {
    SelectOver(Titles(blocks), blocks, MarkedKeys(blocks))
  }

  lemma TitlesSnoc(blocks: seq<Block>, b: Block)
    ensures Titles(blocks + [b]) ==
      (if GroupTitle(b.edition) in Titles(blocks) then Titles(blocks) else Titles(blocks) + [GroupTitle(b.edition)])
  {
    assert (blocks + [b])[..|blocks|] == blocks;
  }

  /**
   * The title groups come in order of first occurrence: wherever a block carries a later title,
   * an earlier block carries every title listed before it.
   */
  lemma {:induction false} TitlesFirstOccurrence(blocks: seq<Block>, i: nat, j: nat, q: nat)
    requires i < j < |Titles(blocks)|
    requires q < |blocks| && GroupTitle(blocks[q].edition) == Titles(blocks)[j]
    ensures exists p :: 0 <= p < q && GroupTitle(blocks[p].edition) == Titles(blocks)[i]
    decreases |blocks|
  {
    var n := |blocks|;
    var prefix := blocks[..n - 1];
    var before := Titles(prefix);
    assert blocks == prefix + [blocks[n - 1]];
    TitlesSnoc(prefix, blocks[n - 1]);
    assert forall k :: 0 <= k < |prefix| ==> prefix[k] == blocks[k];
    if q < n - 1 {
      assert Titles(blocks)[j] in before by {
        assert GroupTitle(prefix[q].edition) == Titles(blocks)[j];
      }
      TitlesFirstOccurrence(prefix, i, j, q);
      var p :| 0 <= p < q && GroupTitle(prefix[p].edition) == before[i];
      assert GroupTitle(blocks[p].edition) == Titles(blocks)[i];
    } else {
      assert before[i] in before;
      var p :| 0 <= p < |prefix| && GroupTitle(prefix[p].edition) == before[i];
      assert GroupTitle(blocks[p].edition) == Titles(blocks)[i];
    }
  }

  lemma VersionsSnoc(blocks: seq<Block>, b: Block, t: string)
    ensures Versions(blocks + [b], t) ==
      Versions(blocks, t) + (if GroupTitle(b.edition) == t then [b.edition] else [])
  {
    assert (blocks + [b])[..|blocks|] == blocks;
  }

  /** A title that occurs nowhere has no versions. */
  lemma {:induction false} VersionsOfNewTitle(blocks: seq<Block>, t: string)
    requires t !in Titles(blocks)
    ensures Versions(blocks, t) == []
  {
    if blocks != [] {
      var prefix := blocks[..|blocks| - 1];
      assert blocks == prefix + [blocks[|blocks| - 1]];
      TitlesSnoc(prefix, blocks[|blocks| - 1]);
      VersionsOfNewTitle(prefix, t);
      assert GroupTitle(blocks[|blocks| - 1].edition) != t;
    }
  }

  lemma MarkedKeysSnoc(blocks: seq<Block>, b: Block)
    ensures MarkedKeys(blocks + [b]) == MarkedKeys(blocks) + (if b.marked then {BookKey(b.edition)} else {})
  {
    assert (blocks + [b])[..|blocks|] == blocks;
  }

  /** `parse_list_file` on the lines `readlines` returned: two scanning passes, then the selection. */
  method ParseListFile(lines: seq<string>) returns (books: seq<Edition>)
    ensures books == SelectTargets(Blocks(lines))
  {
    // what the tests on `line.strip()` make of each line
    var kinds := Map(Classify, lines);
    var allVersions, order := CollectVersions(kinds);
    var markedVersions := CollectMarked(kinds);
    books := SelectDownloads(order, allVersions, markedVersions, Blocks(lines));
  }

  /** The first pass: `all_versions`, each title's versions in file order, and its keys in insertion order. */
  method CollectVersions(kinds: seq<LineKind>) returns (allVersions: map<string, seq<Edition>>, order: seq<string>)
    ensures order == Titles(ScanFrom(kinds, Start).0)
    ensures forall t :: t in allVersions <==> t in order
    ensures forall t :: t in allVersions ==> allVersions[t] == Versions(ScanFrom(kinds, Start).0, t)
  {
    allVersions, order := map[], [];
    var info := NoInfo;
    var inBlock := false;
    ghost var mark := false;
    for i := 0 to |kinds|
      invariant ScanPrefix(kinds, i).1 == ScanState(info, inBlock, mark)
      invariant order == Titles(ScanPrefix(kinds, i).0)
      invariant forall t :: t in allVersions <==> t in order
      invariant forall t :: t in allVersions ==> allVersions[t] == Versions(ScanPrefix(kinds, i).0, t)
    {
      ghost var before := ScanPrefix(kinds, i).0;
      ScanPrefixStep(kinds, i);
      assert before + [] == before;
      var kind := kinds[i];
      match kind {
        case Header(m) =>
          inBlock, mark := true, m;
        case OtherLine =>
        case FieldLine(f, v) =>
          if inBlock {
            info := Record(info, f, v);
            if f == HashField {
              if info.id.Some? && info.id.value != "" && info.hash.Some? && info.hash.value != "" {
                var version := Edition(info.id.value, info.hash.value, info.title, info.author,
                                       info.publisher, info.year, info.language);
                allVersions, order := AddVersion(allVersions, order, version, before, mark);
              }
              info, inBlock, mark := NoInfo, false, false;
            }
          }
      }
    }
    ScanPrefixAll(kinds);
  }

  /** Groups one more complete version under its title, opening the group when the title is new. */
  method AddVersion(allVersions: map<string, seq<Edition>>, order: seq<string>, version: Edition,
                    ghost blocks: seq<Block>, ghost marked: bool)
    returns (allVersions': map<string, seq<Edition>>, order': seq<string>)
    requires order == Titles(blocks)
    requires forall t :: t in allVersions <==> t in order
    requires forall t :: t in allVersions ==> allVersions[t] == Versions(blocks, t)
    ensures order' == Titles(blocks + [Block(version, marked)])
    ensures forall t :: t in allVersions' <==> t in order'
    ensures forall t :: t in allVersions' ==> allVersions'[t] == Versions(blocks + [Block(version, marked)], t)
  {
    var title := GroupTitle(version);
    TitlesSnoc(blocks, Block(version, marked));
    forall t ensures Versions(blocks + [Block(version, marked)], t) ==
      Versions(blocks, t) + (if title == t then [version] else []) {
      VersionsSnoc(blocks, Block(version, marked), t);
    }
    allVersions', order' := allVersions, order;
    if title !in allVersions' {
      VersionsOfNewTitle(blocks, title);
      allVersions' := allVersions'[title := []];
      order' := order' + [title];
    }
    allVersions' := allVersions'[title := allVersions'[title] + [version]];
  }

  /** The second pass: `marked_versions`, keyed by `BookKey`. */
  method CollectMarked(kinds: seq<LineKind>) returns (markedVersions: map<string, Edition>)
    ensures markedVersions.Keys == MarkedKeys(ScanFrom(kinds, Start).0)
    ensures forall k :: k in markedVersions ==> BookKey(markedVersions[k]) == k
  {
    markedVersions := map[];
    var info := NoInfo;
    var inBlock, marked := false, false;
    for i := 0 to |kinds|
      invariant ScanPrefix(kinds, i).1 == ScanState(info, inBlock, marked)
      invariant markedVersions.Keys == MarkedKeys(ScanPrefix(kinds, i).0)
      invariant forall k :: k in markedVersions ==> BookKey(markedVersions[k]) == k
    {
      ghost var before := ScanPrefix(kinds, i).0;
      ScanPrefixStep(kinds, i);
      assert before + [] == before;
      var kind := kinds[i];
      match kind {
        case Header(m) =>
          inBlock, marked := true, m;
        case OtherLine =>
        case FieldLine(f, v) =>
          if inBlock {
            info := Record(info, f, v);
            if f == HashField {
              if info.id.Some? && info.id.value != "" && info.hash.Some? && info.hash.value != "" {
                var version := Edition(info.id.value, info.hash.value, info.title, info.author,
                                       info.publisher, info.year, info.language);
                markedVersions := AddMarked(markedVersions, version, marked, before);
              }
              info, inBlock, marked := NoInfo, false, false;
            }
          }
      }
    }
    ScanPrefixAll(kinds);
  }

  /** The `if marked:` step after a completed version: record it under its key. */
  method AddMarked(markedVersions: map<string, Edition>, version: Edition, marked: bool, ghost before: seq<Block>)
    returns (updated: map<string, Edition>)
    requires markedVersions.Keys == MarkedKeys(before)
    requires forall k :: k in markedVersions ==> BookKey(markedVersions[k]) == k
    ensures updated.Keys == MarkedKeys(before + [Block(version, marked)])
    ensures forall k :: k in updated ==> BookKey(updated[k]) == k
  {
    MarkedKeysSnoc(before, Block(version, marked));
    updated := markedVersions;
    if marked {
      updated := updated[BookKey(version) := version];
    }
  }

  /** The inner `for version in versions` loop: the position of the first marked version, or |versions|. */
  method FirstMarked(versions: seq<Edition>, markedVersions: map<string, Edition>) returns (k: nat)
    ensures k == FirstMarkedFrom(versions, markedVersions.Keys, 0)
  {
    k := 0;
    while k < |versions| && BookKey(versions[k]) !in markedVersions
      invariant k <= |versions|
      invariant FirstMarkedFrom(versions, markedVersions.Keys, k) == FirstMarkedFrom(versions, markedVersions.Keys, 0)
    {
      k := k + 1;
    }
  }

  /** The final loop over `all_versions.items()`, building `books_to_download`. */
  method SelectDownloads(order: seq<string>, allVersions: map<string, seq<Edition>>,
                         markedVersions: map<string, Edition>, ghost blocks: seq<Block>)
    returns (books: seq<Edition>)
    requires forall t :: t in order ==> t in allVersions && allVersions[t] == Versions(blocks, t)
    ensures books == SelectOver(order, blocks, markedVersions.Keys)
  {
    books := [];
    for n := 0 to |order|
      invariant books == SelectOver(order[..n], blocks, markedVersions.Keys)
    {
      assert order[..n + 1][..n] == order[..n];
      assert SelectOver(order[..n + 1], blocks, markedVersions.Keys) ==
        SelectGroup(SelectOver(order[..n], blocks, markedVersions.Keys), Versions(blocks, order[n]), markedVersions.Keys);
      books := SelectTitle(books, allVersions[order[n]], markedVersions);
    }
    assert order[..|order|] == order;
  }

  /** The loop body for one title: add its first marked version, or its only version, unless already chosen. */
  method SelectTitle(books: seq<Edition>, versions: seq<Edition>, markedVersions: map<string, Edition>)
    returns (updated: seq<Edition>)
    ensures updated == SelectGroup(books, versions, markedVersions.Keys)
  {
    updated := books;
    var k := FirstMarked(versions, markedVersions);
    var hasMarked := k < |versions|;
    if hasMarked {
      if BookKey(versions[k]) !in Keys(books) {
        updated := books + [versions[k]];
      }
    }
    if !hasMarked && |versions| == 1 {
      if versions[0].id !in Ids(books) {
        updated := books + [versions[0]];
      }
    }
  }

  // ===================== properties of the selection =====================

  lemma SelectGroupExtends(acc: seq<Edition>, vs: seq<Edition>, marked: set<string>)
    ensures acc <= SelectGroup(acc, vs, marked)
    ensures forall e :: e in SelectGroup(acc, vs, marked) ==> e in acc || e in vs
  {
  }

  /** Decisions for later titles never undo earlier ones. */
  lemma {:induction false} SelectOverPrefix(titles: seq<string>, n: nat, blocks: seq<Block>, marked: set<string>)
    requires n <= |titles|
    ensures SelectOver(titles[..n], blocks, marked) <= SelectOver(titles, blocks, marked)
    decreases |titles|
  {
    if n < |titles| {
      var prefix := titles[..|titles| - 1];
      assert prefix[..n] == titles[..n];
      SelectOverPrefix(prefix, n, blocks, marked);
      SelectGroupExtends(SelectOver(prefix, blocks, marked), Versions(blocks, titles[|titles| - 1]), marked);
    } else {
      assert titles[..n] == titles;
    }
  }

  lemma PrefixMembers<T>(a: seq<T>, b: seq<T>, x: T)
    requires a <= b && x in a
    ensures x in b
  {
    var i :| 0 <= i < |a| && a[i] == x;
    assert b[i] == x;
  }

  lemma MapMembers<A, B>(f: A -> B, s: seq<A>, x: A)
    requires x in s
    ensures f(x) in Map(f, s)
  {
    var i :| 0 <= i < |s| && s[i] == x;
    assert Map(f, s)[i] == f(x);
  }

  lemma MapPrefix<A, B>(f: A -> B, a: seq<A>, b: seq<A>)
    requires a <= b
    ensures Map(f, a) <= Map(f, b)
  {
  }

  /** Each selected edition is one of the file's versions. */
  lemma {:induction false} SelectedAreVersions(titles: seq<string>, blocks: seq<Block>, marked: set<string>, e: Edition)
    requires e in SelectOver(titles, blocks, marked)
    ensures exists i :: 0 <= i < |blocks| && blocks[i].edition == e
    decreases |titles|
  {
    var prefix := titles[..|titles| - 1];
    var t := titles[|titles| - 1];
    SelectGroupExtends(SelectOver(prefix, blocks, marked), Versions(blocks, t), marked);
    if e in SelectOver(prefix, blocks, marked) {
      SelectedAreVersions(prefix, blocks, marked, e);
    } else {
      VersionsAreBlocks(blocks, t, e);
    }
  }

  lemma {:induction false} VersionsAreBlocks(blocks: seq<Block>, t: string, e: Edition)
    requires e in Versions(blocks, t)
    ensures GroupTitle(e) == t
    ensures exists i :: 0 <= i < |blocks| && blocks[i].edition == e
  {
    var prefix := blocks[..|blocks| - 1];
    if e in Versions(prefix, t) {
      VersionsAreBlocks(prefix, t, e);
      var i :| 0 <= i < |prefix| && prefix[i].edition == e;
      assert blocks[i].edition == e;
    } else {
      assert blocks[|blocks| - 1].edition == e;
    }
  }

  /**
   * Marked versions win: when a title has a marked version, the key of its first marked version
   * is among the selected keys.
   */
  lemma MarkedVersionSelected(blocks: seq<Block>, n: nat)
    requires n < |Titles(blocks)|
    requires var vs := Versions(blocks, Titles(blocks)[n]);
      FirstMarkedFrom(vs, MarkedKeys(blocks), 0) < |vs|
    ensures var vs := Versions(blocks, Titles(blocks)[n]);
      BookKey(vs[FirstMarkedFrom(vs, MarkedKeys(blocks), 0)]) in Keys(SelectTargets(blocks))
  {
    var titles, marked := Titles(blocks), MarkedKeys(blocks);
    var vs := Versions(blocks, titles[n]);
    var v := vs[FirstMarkedFrom(vs, marked, 0)];
    var upTo := titles[..n + 1];
    assert upTo[..n] == titles[..n];
    var acc := SelectOver(titles[..n], blocks, marked);
    var after := SelectOver(upTo, blocks, marked);
    assert after == SelectGroup(acc, vs, marked);
    if BookKey(v) in Keys(acc) {
      SelectGroupExtends(acc, vs, marked);
      MapPrefix(BookKey, acc, after);
      PrefixMembers(Keys(acc), Keys(after), BookKey(v));
    } else {
      assert after == acc + [v];
      MapMembers(BookKey, after, v);
    }
    SelectOverPrefix(titles, n + 1, blocks, marked);
    MapPrefix(BookKey, after, SelectTargets(blocks));
    PrefixMembers(Keys(after), Keys(SelectTargets(blocks)), BookKey(v));
  }

  /** A title with a single, unmarked version gets that version's id selected. */
  lemma SingleVersionSelected(blocks: seq<Block>, n: nat)
    requires n < |Titles(blocks)|
    requires var vs := Versions(blocks, Titles(blocks)[n]);
      |vs| == 1 && BookKey(vs[0]) !in MarkedKeys(blocks)
    ensures Versions(blocks, Titles(blocks)[n])[0].id in Ids(SelectTargets(blocks))
  {
    var titles, marked := Titles(blocks), MarkedKeys(blocks);
    var vs := Versions(blocks, titles[n]);
    var getId := (e: Edition) => e.id;
    var upTo := titles[..n + 1];
    assert upTo[..n] == titles[..n];
    var acc := SelectOver(titles[..n], blocks, marked);
    var after := SelectOver(upTo, blocks, marked);
    assert FirstMarkedFrom(vs, marked, 0) == 1;
    assert after == SelectGroup(acc, vs, marked);
    if vs[0].id in Ids(acc) {
      MapPrefix(getId, acc, after);
      PrefixMembers(Ids(acc), Ids(after), vs[0].id);
    } else {
      assert after == acc + [vs[0]];
      MapMembers(getId, after, vs[0]);
    }
    SelectOverPrefix(titles, n + 1, blocks, marked);
    MapPrefix(getId, after, SelectTargets(blocks));
    PrefixMembers(Ids(after), Ids(SelectTargets(blocks)), vs[0].id);
  }

  /**
   * Nothing else is selected: every selected edition is marked, or is the only version of a
   * title that has no marked version.
   */
  lemma {:induction false} SelectedJustified(titles: seq<string>, blocks: seq<Block>, marked: set<string>, e: Edition)
    requires e in SelectOver(titles, blocks, marked)
    ensures BookKey(e) in marked || exists t :: t in titles && Versions(blocks, t) == [e]
    decreases |titles|
  {
    var prefix := titles[..|titles| - 1];
    var t := titles[|titles| - 1];
    var acc := SelectOver(prefix, blocks, marked);
    if e in acc {
      SelectedJustified(prefix, blocks, marked, e);
      if BookKey(e) !in marked {
        var t' :| t' in prefix && Versions(blocks, t') == [e];
        assert t' in titles;
      }
    } else {
      var vs := Versions(blocks, t);
      var k := FirstMarkedFrom(vs, marked, 0);
      if k == |vs| {
        assert vs == [e] && t in titles;
      }
    }
  }

  /** With ids free of '_', no key is selected twice (marked picks check keys, single picks ids). */
  lemma {:induction false} SelectOverDistinctKeys(titles: seq<string>, blocks: seq<Block>, marked: set<string>)
    requires forall i :: 0 <= i < |blocks| ==> '_' !in blocks[i].edition.id
    ensures Distinct(Keys(SelectOver(titles, blocks, marked)))
    ensures PlainIds(SelectOver(titles, blocks, marked))
    decreases |titles|
  {
    if titles != [] {
      var prefix := titles[..|titles| - 1];
      var vs := Versions(blocks, titles[|titles| - 1]);
      var acc := SelectOver(prefix, blocks, marked);
      SelectOverDistinctKeys(prefix, blocks, marked);
      var r := SelectOver(titles, blocks, marked);
      forall i | 0 <= i < |r| ensures '_' !in r[i].id {
        SelectGroupExtends(acc, vs, marked);
        if r[i] !in acc {
          VersionsAreBlocks(blocks, titles[|titles| - 1], r[i]);
        }
      }
      if r != acc {
        var x := r[|r| - 1];
        assert r == acc + [x];
        KeyInIds(acc, x);
        assert BookKey(x) !in Keys(acc);
        assert Keys(r) == Keys(acc) + [BookKey(x)];
      }
    }
  }

  /** Under plain ids, an edition whose key is taken has its id taken too. */
  lemma KeyInIds(acc: seq<Edition>, x: Edition)
    requires PlainIds(acc) && '_' !in x.id
    ensures BookKey(x) in Keys(acc) ==> x.id in Ids(acc)
  {
    if BookKey(x) in Keys(acc) {
      var j :| 0 <= j < |acc| && Keys(acc)[j] == BookKey(x);
      KeyInjective(acc[j], x);
      assert Ids(acc)[j] == x.id;
    }
  }

  lemma SelectTargetsDistinctKeys(blocks: seq<Block>)
    requires forall i :: 0 <= i < |blocks| ==> '_' !in blocks[i].edition.id
    ensures Distinct(Keys(SelectTargets(blocks)))
  {
    SelectOverDistinctKeys(Titles(blocks), blocks, MarkedKeys(blocks));
  }

  /** Two versions of one title, the second marked: only the marked one is selected. */
  lemma MarkedBeatsUnmarked(a: Edition, b: Edition)
    requires GroupTitle(a) == GroupTitle(b) && BookKey(a) != BookKey(b)
    ensures SelectTargets([Block(a, false), Block(b, true)]) == [b]
  {
    var blocks := [Block(a, false), Block(b, true)];
    TwoSameTitle(a, b, false, true);
    assert MarkedKeys(blocks) == {BookKey(b)};
    SelectSingleTitle(blocks, GroupTitle(a));
    assert FirstMarkedFrom([a, b], {BookKey(b)}, 0) == 1;
  }

  /** Two blocks of one title: one title, both versions in order, the marked keys of the two. */
  lemma TwoSameTitle(a: Edition, b: Edition, ma: bool, mb: bool)
    requires GroupTitle(a) == GroupTitle(b)
    ensures Titles([Block(a, ma), Block(b, mb)]) == [GroupTitle(a)]
    ensures Versions([Block(a, ma), Block(b, mb)], GroupTitle(a)) == [a, b]
    ensures MarkedKeys([Block(a, ma), Block(b, mb)]) ==
      (if ma then {BookKey(a)} else {}) + (if mb then {BookKey(b)} else {})
  {
    TwoTitles(a, b, ma, mb);
    TwoVersions(a, b, ma, mb);
    TwoMarked(a, b, ma, mb);
  }

  lemma TwoTitles(a: Edition, b: Edition, ma: bool, mb: bool)
    requires GroupTitle(a) == GroupTitle(b)
    ensures Titles([Block(a, ma), Block(b, mb)]) == [GroupTitle(a)]
  {
    var first := [Block(a, ma)];
    assert [] + first == first;
    assert first + [Block(b, mb)] == [Block(a, ma), Block(b, mb)];
    TitlesSnoc([], Block(a, ma));
    TitlesSnoc(first, Block(b, mb));
  }

  lemma TwoVersions(a: Edition, b: Edition, ma: bool, mb: bool)
    requires GroupTitle(a) == GroupTitle(b)
    ensures Versions([Block(a, ma), Block(b, mb)], GroupTitle(a)) == [a, b]
  {
    var first := [Block(a, ma)];
    assert [] + first == first;
    assert first + [Block(b, mb)] == [Block(a, ma), Block(b, mb)];
    VersionsSnoc([], Block(a, ma), GroupTitle(a));
    VersionsSnoc(first, Block(b, mb), GroupTitle(a));
  }

  lemma TwoMarked(a: Edition, b: Edition, ma: bool, mb: bool)
    ensures MarkedKeys([Block(a, ma), Block(b, mb)]) ==
      (if ma then {BookKey(a)} else {}) + (if mb then {BookKey(b)} else {})
  {
    var first := [Block(a, ma)];
    assert [] + first == first;
    assert first + [Block(b, mb)] == [Block(a, ma), Block(b, mb)];
    MarkedKeysSnoc([], Block(a, ma));
    MarkedKeysSnoc(first, Block(b, mb));
  }

  /** With a single title the selection is that title's group. */
  lemma SelectSingleTitle(blocks: seq<Block>, t: string)
    requires Titles(blocks) == [t]
    ensures SelectTargets(blocks) == SelectGroup([], Versions(blocks, t), MarkedKeys(blocks))
  {
    var titles := Titles(blocks);
    assert titles[..|titles| - 1] == [] && titles[|titles| - 1] == t;
    assert SelectOver([], blocks, MarkedKeys(blocks)) == [];
  }

  /** Two unmarked versions of one title: nothing is selected for it. */
  lemma AmbiguousTitleSkipped(a: Edition, b: Edition)
    requires GroupTitle(a) == GroupTitle(b)
    ensures SelectTargets([Block(a, false), Block(b, false)]) == []
  {
    var blocks := [Block(a, false), Block(b, false)];
    TwoSameTitle(a, b, false, false);
    assert MarkedKeys(blocks) == {};
    SelectSingleTitle(blocks, GroupTitle(a));
    assert FirstMarkedFrom([a, b], {}, 0) == 2;
  }

  // ===================== reading back the report =====================

  /** The edition the reader recovers from a version block the search side wrote for `b`. */
  function ParsedEdition(b: BatchSearch.Book): Edition {
    Edition(b.id, b.hash, Some(b.title), Some(BatchSearch.OrNA(b.author)), Some(BatchSearch.OrNA(b.publisher)),
            Some(BatchSearch.OrNA(b.year)), Some(BatchSearch.OrNA(b.language)))
  }

  /** The user's edit that marks a version: a `v` in front of its header line. */
  function MarkHeader(block: seq<string>, marked: bool): (r: seq<string>)
    requires block != []
    ensures |r| == |block|
  {
    if marked then ["v" + block[0]] + block[1..] else block
  }

  /** Values the writer can put on one line and the reader hands back unchanged. */
  predicate Writable(s: string) {
    Trimmed(s) && NoLineBreak(s)
  }

  predicate WritableBook(b: BatchSearch.Book) {
    && Writable(b.title) && Writable(b.author) && Writable(b.publisher) && Writable(b.year)
    && Writable(b.language) && Writable(b.id) && Writable(b.hash)
    && NoLineBreak(b.pages) && NoLineBreak(b.fileSize)
    && b.id != "" && b.hash != ""
  }

  /** The indents and line ends the writer uses are whitespace. */
  lemma FramingSpaces()
    ensures AllSpace("") && AllSpace(" ") && AllSpace("  ") && AllSpace("    ")
    ensures AllSpace("\n") && AllSpace(" \n")
  {
    assert IsSpace(' ') && IsSpace('\n');
  }

  lemma StripFramed(w1: string, c: string, w2: string)
    requires AllSpace(w1) && AllSpace(w2) && Trimmed(c)
    ensures Strip(w1 + c + w2) == c
  {
    if c == [] {
      assert w1 + c + w2 == w1 + w2;
      StripAllSpace(w1 + w2);
    } else {
      assert w1 + c + w2 == w1 + (c + w2);
      LStripPrefix(w1, c + w2);
      RStripSuffix(c, w2);
    }
  }

  /** A written field line `"    " + label + " " + v`, read back with its '\n', strips to the label and the value. */
  lemma FieldLineStrip(name: string, v: string)
    requires |name| > 1 && !IsSpace(name[0]) && name[|name| - 1] == ':'
    requires Writable(v)
    ensures var s := Strip("    " + name + " " + v + "\n");
      name <= s && LabelValue(s, |name|) == v
  {
    if v == "" {
      assert "    " + name + " " + v + "\n" == "    " + name + " \n";
      FieldLineStripEmpty(name);
    } else {
      assert "    " + name + " " + v + "\n" == "    " + (name + " " + v) + "\n";
      FieldLineStripValue(name, v);
    }
  }

  lemma FieldLineStripEmpty(name: string)
    requires |name| > 1 && !IsSpace(name[0]) && name[|name| - 1] == ':'
    ensures var s := Strip("    " + name + " \n");
      name <= s && LabelValue(s, |name|) == ""
  {
    FramingSpaces();
    StripFramed("    ", name, " \n");
    assert name[|name|..] == [];
  }

  lemma FieldLineStripValue(name: string, v: string)
    requires |name| > 1 && !IsSpace(name[0]) && name[|name| - 1] == ':'
    requires Writable(v) && v != ""
    ensures var s := Strip("    " + (name + " " + v) + "\n");
      name <= s && LabelValue(s, |name|) == v
  {
    FieldTextTrimmed(name, v);
    FramingSpaces();
    StripFramed("    ", name + " " + v, "\n");
    FieldTextValue(name, v);
  }

  lemma FieldTextTrimmed(name: string, v: string)
    requires |name| > 1 && !IsSpace(name[0])
    requires Writable(v) && v != ""
    ensures Trimmed(name + " " + v) && name <= name + " " + v
  {
    var c := name + " " + v;
    assert c[0] == name[0] && c[|c| - 1] == v[|v| - 1];
  }

  lemma FieldTextValue(name: string, v: string)
    requires Writable(v)
    ensures LabelValue(name + " " + v, |name|) == v
  {
    assert (name + " " + v)[|name|..] == " " + v + "";
    FramingSpaces();
    StripFramed(" ", v, "");
  }

  /** A line that strips to something starting with `c`, a character that is no space. */
  lemma StripStart(w: string, c: char, rest: string)
    requires AllSpace(w) && !IsSpace(c)
    ensures Strip(w + [c] + rest) != [] && Strip(w + [c] + rest)[0] == c
  {
    assert w + [c] + rest == w + ([c] + rest);
    LStripPrefix(w, [c] + rest);
    var r := RStrip([c] + rest);
    assert |r| > 0;
  }

  /** A stripped line starting with neither a space, `v` nor `【` is no header. */
  lemma NotHeader(s: string)
    requires s != [] && !IsSpace(s[0]) && s[0] != 'v' && s[0] != '【'
    ensures !MarkedHeader(s) && !PlainHeader(s)
  {
    assert LStrip(s) == s;
  }

  /** A written field line with a label the reader knows classifies as that field with the value written. */
  lemma ClassifyField(j: nat, field: (string, string), f: InfoField)
    requires j < |FieldLabels| && FieldLabels[j] == (field.0, f)
    requires Writable(field.1)
    ensures Classify(BatchSearch.FieldText(field) + "\n") == FieldLine(f, field.1)
  {
    var (name, v) := field;
    LabelShapes();
    FieldLineStrip(name, v);
    var s := Strip(BatchSearch.FieldText(field) + "\n");
    assert s[0] == name[0];
    NotHeader(s);
    MatchLabelAt(s, 0, j);
  }

  /** A written line whose label the reader does not know (pages, file size) is ignored. */
  lemma ClassifyOther(field: (string, string))
    requires field.0 != [] && !IsSpace(field.0[0]) && field.0[0] != 'v' && field.0[0] != '【'
    requires forall i :: 0 <= i < |FieldLabels| ==> FieldLabels[i].0[0] != field.0[0]
    ensures Classify(BatchSearch.FieldText(field) + "\n") == OtherLine
  {
    var (name, v) := field;
    var c := name[0];
    assert name == [c] + name[1..];
    assert BatchSearch.FieldText(field) + "\n" == "    " + [c] + (name[1..] + " " + v + "\n");
    StripStart("    ", c, name[1..] + " " + v + "\n");
    var s := Strip(BatchSearch.FieldText(field) + "\n");
    NotHeader(s);
    MatchLabelNone(s, 0);
  }

  /** The version tag the writer puts in a header, `【版本 <digits>】`, matches the header pattern. */
  lemma WrittenTag(d: string)
    requires d != [] && AllDigits(d)
    ensures VersionTag("【版本 " + d + "】") && Trimmed("【版本 " + d + "】")
  {
    var tag := "【版本 " + d + "】";
    assert tag[..3] == "【版本";
    assert tag[3..] == " " + (d + "】");
    LStripPrefix(" ", d + "】");
    DigitRunPrefix(d, "】");
  }

  lemma PlainTagLine(tag: string)
    requires VersionTag(tag) && Trimmed(tag)
    ensures Classify("  " + tag + "\n") == Header(false)
  {
    FramingSpaces();
    StripFramed("  ", tag, "\n");
    PlainTagKind(tag);
    ClassifyPlain("  " + tag + "\n");
  }

  /** A line whose stripped text is an unmarked header and no marked one classifies as an unmarked header. */
  lemma ClassifyPlain(line: string)
    requires !MarkedHeader(Strip(line)) && PlainHeader(Strip(line))
    ensures Classify(line) == Header(false)
  {
  }

  /** A version tag read on its own is a plain header, not a marked one. */
  lemma PlainTagKind(tag: string)
    requires VersionTag(tag) && Trimmed(tag)
    ensures !MarkedHeader(tag) && PlainHeader(tag)
  {
    assert tag[0] == '【';
  }

  lemma MarkedTagLine(tag: string)
    requires VersionTag(tag) && Trimmed(tag)
    ensures Classify("v" + ("  " + tag) + "\n") == Header(true)
  {
    MarkedTagMatches(tag);
    MarkedTagStrip(tag);
  }

  /** `v`, two spaces and a version tag match the marked-header pattern. */
  lemma MarkedTagMatches(tag: string)
    requires VersionTag(tag) && Trimmed(tag)
    ensures MarkedHeader("v" + ("  " + tag))
  {
    MarkedTagStart(tag);
  }

  /** Before a trimmed tag, the mark and two spaces: nothing to strip in front, and the tag right after the mark. */
  lemma MarkedTagStart(tag: string)
    requires tag != [] && Trimmed(tag)
    ensures LStrip("v" + ("  " + tag)) == "v" + ("  " + tag)
    ensures LStrip(("v" + ("  " + tag))[1..]) == tag
  {
    var c := "v" + ("  " + tag);
    assert c[0] == 'v';
    LStripPrefix("", c);
    assert "" + c == c;
    MarkedTagRest(tag);
  }

  lemma MarkedTagRest(tag: string)
    requires tag != [] && Trimmed(tag)
    ensures LStrip(("v" + ("  " + tag))[1..]) == tag
  {
    assert ("v" + ("  " + tag))[1..] == "  " + tag;
    LStripPrefix("  ", tag);
  }

  /** Stripping the marked header line removes only its terminator. */
  lemma MarkedTagStrip(tag: string)
    requires tag != [] && Trimmed(tag)
    ensures Strip("v" + ("  " + tag) + "\n") == "v" + ("  " + tag)
  {
    var c := "v" + ("  " + tag);
    assert "v" + ("  " + tag) + "\n" == "" + c + "\n";
    assert c[0] == 'v' && c[|c| - 1] == tag[|tag| - 1];
    assert Trimmed(c);
    FramingSpaces();
    StripFramed("", c, "\n");
  }

  /** The header line of a written block, marked or not, classifies as a header with that mark. */
  lemma ClassifyHeader(index: nat, marked: bool)
    ensures Classify((if marked then "v" else "") + BatchSearch.HeaderText(index) + "\n") == Header(marked)
  {
    var tag := BatchSearch.VersionLabel(index);
    WrittenTag(NatToString(index));
    if marked {
      MarkedTagLine(tag);
    } else {
      assert "" + BatchSearch.HeaderText(index) == "  " + tag;
      PlainTagLine(tag);
    }
  }

  lemma {:induction false} DigitRunPrefix(d: string, rest: string)
    requires AllDigits(d) && rest != [] && !IsDigit(rest[0])
    ensures DigitRun(d + rest) == |d|
    decreases |d|
  {
    var s := d + rest;
    if d != [] {
      assert s[0] == d[0] && IsDigit(s[0]);
      assert s[1..] == d[1..] + rest;
      DigitRunPrefix(d[1..], rest);
      assert DigitRun(s) == DigitRun(s[1..]) + 1;
    } else {
      assert s == rest && !IsDigit(s[0]);
    }
  }

  /** How the reader classifies the nine field lines of a written version block. */
  function FieldKinds(b: BatchSearch.Book): (r: seq<LineKind>)
    ensures |r| == 9
  {
    [ FieldLine(TitleField, b.title),
      FieldLine(AuthorField, BatchSearch.OrNA(b.author)),
      FieldLine(PublisherField, BatchSearch.OrNA(b.publisher)),
      FieldLine(YearField, BatchSearch.OrNA(b.year)),
      FieldLine(LanguageField, BatchSearch.OrNA(b.language)),
      OtherLine,
      OtherLine,
      FieldLine(IdField, b.id),
      FieldLine(HashField, b.hash) ]
  }

  /** How the reader classifies the ten lines of a written version block. */
  function BlockKinds(b: BatchSearch.Book, marked: bool): (r: seq<LineKind>)
    ensures |r| == 10
  {
    [Header(marked)] + FieldKinds(b)
  }

  lemma WritableOrNA(s: string)
    requires Writable(s)
    ensures Writable(BatchSearch.OrNA(s))
  {
  }

  /** Every line of a written block, marked or not, classifies as the kind `BlockKinds` gives for its position. */
  lemma ClassifyBlock(index: nat, b: BatchSearch.Book, marked: bool)
    requires WritableBook(b)
    ensures Map(Classify, Terminated(MarkHeader(BatchSearch.VersionBlock(index, b), marked))) == BlockKinds(b, marked)
  {
    var lines := Terminated(MarkHeader(BatchSearch.VersionBlock(index, b), marked));
    forall k | 0 <= k < |lines| ensures Classify(lines[k]) == BlockKinds(b, marked)[k] {
      if k == 0 {
        ClassifyBlockHeader(index, b, marked);
      } else {
        ClassifyBlockField(index, b, marked, k);
      }
    }
    MapPointwise(Classify, lines, BlockKinds(b, marked));
  }

  /** A map that agrees with `t` at every position is `t`. */
  lemma MapPointwise<A, B>(f: A -> B, s: seq<A>, t: seq<B>)
    requires |s| == |t|
    requires forall k :: 0 <= k < |s| ==> f(s[k]) == t[k]
    ensures Map(f, s) == t
  {
  }

  /** The first line of a written block, read back, is a header carrying the mark. */
  lemma ClassifyBlockHeader(index: nat, b: BatchSearch.Book, marked: bool)
    ensures Classify(Terminated(MarkHeader(BatchSearch.VersionBlock(index, b), marked))[0]) == BlockKinds(b, marked)[0]
  {
    var block := BatchSearch.VersionBlock(index, b);
    assert Terminated(MarkHeader(block, marked))[0] == (if marked then "v" else "") + BatchSearch.HeaderText(index) + "\n" by {
      if !marked {
        assert "" + block[0] == block[0];
      }
    }
    ClassifyHeader(index, marked);
  }

  /** Line `k` after the header of a written block, read back, is the `k`-th field line of the block. */
  lemma ClassifyBlockField(index: nat, b: BatchSearch.Book, marked: bool, k: nat)
    requires WritableBook(b) && 1 <= k < 10
    ensures Classify(Terminated(MarkHeader(BatchSearch.VersionBlock(index, b), marked))[k]) == BlockKinds(b, marked)[k]
  {
    var block := BatchSearch.VersionBlock(index, b);
    assert BlockKinds(b, marked)[k] == FieldKinds(b)[k - 1];
    assert Terminated(MarkHeader(block, marked))[k] == BatchSearch.FieldText(BatchSearch.BlockFields(b)[k - 1]) + "\n";
    ClassifyWrittenField(b, k - 1);
  }

  /** Field line `k` of a written block, read back with its terminator, classifies as the `k`-th field kind. */
  lemma ClassifyWrittenField(b: BatchSearch.Book, k: nat)
    requires WritableBook(b) && k < 9
    ensures Classify(BatchSearch.FieldText(BatchSearch.BlockFields(b)[k]) + "\n") == FieldKinds(b)[k]
  {
    if k == 0 {
      ClassifyTitleLine(b);
    } else if k == 1 {
      ClassifyAuthorLine(b);
    } else if k == 2 {
      ClassifyPublisherLine(b);
    } else if k == 3 {
      ClassifyYearLine(b);
    } else if k == 4 {
      ClassifyLanguageLine(b);
    } else if k == 5 {
      ClassifyPagesLine(b);
    } else if k == 6 {
      ClassifySizeLine(b);
    } else if k == 7 {
      ClassifyIdLine(b);
    } else {
      ClassifyHashLine(b);
    }
  }

  /** In a written block the title line reads back as the title. */
  lemma ClassifyTitleLine(b: BatchSearch.Book)
    requires WritableBook(b)
    ensures Classify(BatchSearch.FieldText(BatchSearch.BlockFields(b)[0]) + "\n") == FieldKinds(b)[0]
  {
    ClassifyField(0, BatchSearch.BlockFields(b)[0], TitleField);
  }

  /** In a written block the author line (N/A for a missing author) reads back as the author. */
  lemma ClassifyAuthorLine(b: BatchSearch.Book)
    requires WritableBook(b)
    ensures Classify(BatchSearch.FieldText(BatchSearch.BlockFields(b)[1]) + "\n") == FieldKinds(b)[1]
  {
    WritableOrNA(b.author);
    ClassifyField(1, BatchSearch.BlockFields(b)[1], AuthorField);
  }

  /** In a written block the publisher line reads back as the publisher. */
  lemma ClassifyPublisherLine(b: BatchSearch.Book)
    requires WritableBook(b)
    ensures Classify(BatchSearch.FieldText(BatchSearch.BlockFields(b)[2]) + "\n") == FieldKinds(b)[2]
  {
    WritableOrNA(b.publisher);
    ClassifyField(2, BatchSearch.BlockFields(b)[2], PublisherField);
  }

  /** In a written block the year line reads back as the year. */
  lemma ClassifyYearLine(b: BatchSearch.Book)
    requires WritableBook(b)
    ensures Classify(BatchSearch.FieldText(BatchSearch.BlockFields(b)[3]) + "\n") == FieldKinds(b)[3]
  {
    WritableOrNA(b.year);
    ClassifyField(3, BatchSearch.BlockFields(b)[3], YearField);
  }

  /** In a written block the language line reads back as the language. */
  lemma ClassifyLanguageLine(b: BatchSearch.Book)
    requires WritableBook(b)
    ensures Classify(BatchSearch.FieldText(BatchSearch.BlockFields(b)[4]) + "\n") == FieldKinds(b)[4]
  {
    WritableOrNA(b.language);
    ClassifyField(4, BatchSearch.BlockFields(b)[4], LanguageField);
  }

  /** In a written block the pages line is ignored by the reader. */
  lemma ClassifyPagesLine(b: BatchSearch.Book)
    requires WritableBook(b)
    ensures Classify(BatchSearch.FieldText(BatchSearch.BlockFields(b)[5]) + "\n") == FieldKinds(b)[5]
  {
    UnknownLabels();
    ClassifyOther(BatchSearch.BlockFields(b)[5]);
  }

  /** In a written block the file-size line is ignored by the reader. */
  lemma ClassifySizeLine(b: BatchSearch.Book)
    requires WritableBook(b)
    ensures Classify(BatchSearch.FieldText(BatchSearch.BlockFields(b)[6]) + "\n") == FieldKinds(b)[6]
  {
    UnknownLabels();
    ClassifyOther(BatchSearch.BlockFields(b)[6]);
  }

  /** In a written block the ID line reads back as the id. */
  lemma ClassifyIdLine(b: BatchSearch.Book)
    requires WritableBook(b)
    ensures Classify(BatchSearch.FieldText(BatchSearch.BlockFields(b)[7]) + "\n") == FieldKinds(b)[7]
  {
    ClassifyField(5, BatchSearch.BlockFields(b)[7], IdField);
  }

  /** In a written block the Hash line reads back as the hash. */
  lemma ClassifyHashLine(b: BatchSearch.Book)
    requires WritableBook(b)
    ensures Classify(BatchSearch.FieldText(BatchSearch.BlockFields(b)[8]) + "\n") == FieldKinds(b)[8]
  {
    ClassifyField(6, BatchSearch.BlockFields(b)[8], HashField);
  }

  /** Scanning the kinds of one written block from the start state completes exactly that version. */
  lemma ScanBlock(b: BatchSearch.Book, marked: bool)
    requires b.id != "" && b.hash != ""
    ensures ScanFrom(BlockKinds(b, marked), Start) == ([Block(ParsedEdition(b), marked)], Start)
  {
    var ks := BlockKinds(b, marked);
    var author, publisher := BatchSearch.OrNA(b.author), BatchSearch.OrNA(b.publisher);
    var year, language := BatchSearch.OrNA(b.year), BatchSearch.OrNA(b.language);
    var i1 := NoInfo.(title := Some(b.title));
    var i2 := i1.(author := Some(author));
    var i3 := i2.(publisher := Some(publisher));
    var i4 := i3.(year := Some(year));
    var i5 := i4.(language := Some(language));
    var i6 := i5.(id := Some(b.id));
    var blk := Block(ParsedEdition(b), marked);
    assert Complete(Record(i6, HashField, b.hash), marked) == Some(blk);
    var sts := [ScanState(NoInfo, true, marked), ScanState(i1, true, marked), ScanState(i2, true, marked),
                ScanState(i3, true, marked), ScanState(i4, true, marked), ScanState(i5, true, marked),
                ScanState(i5, true, marked), ScanState(i5, true, marked), ScanState(i6, true, marked)];
    ScanChain(ks, Start, sts, blk);
  }

  /** Kinds of which all but the last complete nothing, stepping through `sts`, and the last completes `blk` and resets. */
  lemma {:induction false} ScanChain(ks: seq<LineKind>, st: ScanState, sts: seq<ScanState>, blk: Block)
    requires |ks| == |sts| + 1
    requires sts != [] ==> Step(st, ks[0]) == (sts[0], None)
    requires forall i :: 1 <= i < |sts| ==> Step(sts[i - 1], ks[i]) == (sts[i], None)
    requires Step(if sts == [] then st else sts[|sts| - 1], ks[|ks| - 1]) == (Start, Some(blk))
    ensures ScanFrom(ks, st) == ([blk], Start)
    decreases |sts|
  {
    if sts == [] {
      assert ks[1..] == [];
      assert Step(st, ks[0]) == (Start, Some(blk));
      assert ScanFrom(ks, st) == ([blk] + [], Start);
      assert [blk] + [] == [blk];
    } else {
      ScanChain(ks[1..], sts[0], sts[1..], blk);
      var rest := ScanFrom(ks[1..], sts[0]);
      assert Step(st, ks[0]) == (sts[0], None);
      assert ScanFrom(ks, st) == ([] + rest.0, rest.1);
      assert [] + rest.0 == [blk];
    }
  }

  /** Reading back one version block (marked or not) yields exactly that version, and the scanner is reset. */
  lemma BlockRoundTrip(index: nat, b: BatchSearch.Book, marked: bool)
    requires WritableBook(b)
    ensures ScanFrom(Map(Classify, Terminated(MarkHeader(BatchSearch.VersionBlock(index, b), marked))), Start) ==
      ([Block(ParsedEdition(b), marked)], Start)
  {
    ClassifyBlock(index, b, marked);
    ScanBlock(b, marked);
  }

  lemma MapConcat<A, B>(f: A -> B, s: seq<A>, t: seq<A>)
    ensures Map(f, s + t) == Map(f, s) + Map(f, t)
  {
  }

  /** The version the reader recovers from the unedited block written for `b`. */
  function UnmarkedBlock(b: BatchSearch.Book): Block {
    Block(ParsedEdition(b), false)
  }

  /** The version blocks the writer produces, read back line by line, are exactly the versions written, unmarked. */
  lemma ReportRoundTrip(books: seq<BatchSearch.Book>, first: nat)
    requires forall i :: 0 <= i < |books| ==> WritableBook(books[i])
    ensures Blocks(SplitLines(JoinLines(BatchSearch.VersionBlocks(books, first)))) == Map(UnmarkedBlock, books)
  {
    var lines := BatchSearch.VersionBlocks(books, first);
    VersionBlocksWritable(books, first);
    SplitJoin(lines);
    ReportScan(books, first);
  }

  /** Scanning the kinds of the written blocks completes one unmarked version per book and ends in the start state. */
  lemma {:induction false} ReportScan(books: seq<BatchSearch.Book>, first: nat)
    requires forall i :: 0 <= i < |books| ==> WritableBook(books[i])
    ensures ScanFrom(Map(Classify, Terminated(BatchSearch.VersionBlocks(books, first))), Start) == (Map(UnmarkedBlock, books), Start)
    decreases |books|
  {
    if books != [] {
      assert forall i :: 0 <= i < |books[1..]| ==> WritableBook(books[1..][i]);
      ReportScan(books[1..], first + 1);
      ReportScanCons(books, first);
    }
  }

  /** The inductive step of `ReportScan`: one more written block in front. */
  lemma ReportScanCons(books: seq<BatchSearch.Book>, first: nat)
    requires books != [] && WritableBook(books[0])
    requires ScanFrom(Map(Classify, Terminated(BatchSearch.VersionBlocks(books[1..], first + 1))), Start) ==
      (Map(UnmarkedBlock, books[1..]), Start)
    ensures ScanFrom(Map(Classify, Terminated(BatchSearch.VersionBlocks(books, first))), Start) == (Map(UnmarkedBlock, books), Start)
  {
    var head := BatchSearch.VersionBlock(first, books[0]);
    var tail := BatchSearch.VersionBlocks(books[1..], first + 1);
    assert BatchSearch.VersionBlocks(books, first) == head + tail;
    UnmarkedBlockRoundTrip(first, books[0]);
    ReportStep(head, tail, UnmarkedBlock(books[0]), Map(UnmarkedBlock, books[1..]));
    MapCons(UnmarkedBlock, books);
  }

  lemma MapCons<A, B>(f: A -> B, s: seq<A>)
    requires s != []
    ensures Map(f, s) == [f(s[0])] + Map(f, s[1..])
  {
  }

  /** Reading back one unedited block yields its unmarked version. */
  lemma UnmarkedBlockRoundTrip(index: nat, b: BatchSearch.Book)
    requires WritableBook(b)
    ensures ScanFrom(Map(Classify, Terminated(BatchSearch.VersionBlock(index, b))), Start) == ([UnmarkedBlock(b)], Start)
  {
    BlockRoundTrip(index, b, false);
  }

  /** A text that reads back as one version, followed by a text that reads back as `xs`. */
  lemma ReportStep(head: seq<string>, tail: seq<string>, x: Block, xs: seq<Block>)
    requires ScanFrom(Map(Classify, Terminated(head)), Start) == ([x], Start)
    requires ScanFrom(Map(Classify, Terminated(tail)), Start) == (xs, Start)
    ensures ScanFrom(Map(Classify, Terminated(head + tail)), Start) == ([x] + xs, Start)
  {
    ClassifyConcat(head, tail);
    ScanJoin(Map(Classify, Terminated(head)), Map(Classify, Terminated(tail)), x, xs);
  }

  /** Classifying the lines of two texts read one after the other. */
  lemma ClassifyConcat(a: seq<string>, b: seq<string>)
    ensures Map(Classify, Terminated(a + b)) == Map(Classify, Terminated(a)) + Map(Classify, Terminated(b))
  {
    TerminatedConcat(a, b);
    MapConcat(Classify, Terminated(a), Terminated(b));
  }

  /** A block that completes one version and returns to the start state, followed by lines that complete `xs` from it. */
  lemma ScanJoin(a: seq<LineKind>, b: seq<LineKind>, x: Block, xs: seq<Block>)
    requires ScanFrom(a, Start) == ([x], Start) && ScanFrom(b, Start) == (xs, Start)
    ensures ScanFrom(a + b, Start) == ([x] + xs, Start)
  {
    ScanConcat(a, b, Start);
  }

  lemma TerminatedConcat(a: seq<string>, b: seq<string>)
    ensures Terminated(a + b) == Terminated(a) + Terminated(b)
  {
    assert forall i :: 0 <= i < |a| ==> (a + b)[i] == a[i];
    assert forall i :: |a| <= i < |a| + |b| ==> (a + b)[i] == b[i - |a|];
  }

  /** No line the writer produces for writable books contains a line break. */
  lemma {:induction false} VersionBlocksWritable(books: seq<BatchSearch.Book>, first: nat)
    requires forall i :: 0 <= i < |books| ==> WritableBook(books[i])
    ensures forall i :: 0 <= i < |BatchSearch.VersionBlocks(books, first)| ==> NoLineBreak(BatchSearch.VersionBlocks(books, first)[i])
    decreases |books|
  {
    if books != [] {
      var head := BatchSearch.VersionBlock(first, books[0]);
      var tail := BatchSearch.VersionBlocks(books[1..], first + 1);
      assert BatchSearch.VersionBlocks(books, first) == head + tail;
      VersionBlockWritable(first, books[0]);
      VersionBlocksWritable(books[1..], first + 1);
    }
  }

  /** No line of one written block contains a line break. */
  lemma VersionBlockWritable(index: nat, b: BatchSearch.Book)
    requires WritableBook(b)
    ensures forall k :: 0 <= k < |BatchSearch.VersionBlock(index, b)| ==> NoLineBreak(BatchSearch.VersionBlock(index, b)[k])
  {
    var block := BatchSearch.VersionBlock(index, b);
    forall k | 0 <= k < |block| ensures NoLineBreak(block[k]) {
      if k == 0 {
        assert NoLineBreak(NatToString(index));
      } else {
        var field := BatchSearch.BlockFields(b)[k - 1];
        FieldValueWritable(b, k - 1);
        assert block[k] == "    " + field.0 + " " + field.1;
      }
    }
  }

  /** The labels and values of a written block have no line break. */
  lemma FieldValueWritable(b: BatchSearch.Book, k: nat)
    requires WritableBook(b) && k < 9
    ensures NoLineBreak(BatchSearch.BlockFields(b)[k].0) && NoLineBreak(BatchSearch.BlockFields(b)[k].1)
  {
  }
}
