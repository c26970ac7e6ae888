/** Proof files: a header, then length-prefixed proofs, each followed by its link of a hash
    chain.  The assembler splits, edits and rebuilds such files and trusts their form: it
    panics (`None` here) where bytes are missing. */
module ProofFile {
  import opened Options
  import opened Bytes
  import opened Codec
  import opened Sorting

  const FILE_MAGIC: bytes := [84, 65, 80, 70]
  const PROOF_MAGIC: bytes := [84, 65, 80, 80]

  /** A byte string with a 64-bit length. */
  type Blob = b: bytes | |b| < 0x1_0000_0000_0000_0000
  type Word = w: bytes | |w| == 32 witness seq(32, _ => 0)
  type Digest = bytes -> Word

  datatype Record = Record(kind: u64, value: Blob)

  const ANCHOR_KINDS: seq<u64> := [4, 6, 8, 22]

  // --------------------------------------------------------------------- reading

  /** A BigSize in whatever form, and what follows it. */
  function LooseBigSize(s: bytes): Option<(u64, bytes)> {
    if |s| == 0 then None else
    var w := PayloadWidth(s[0]);
    if |s| - 1 < w then None else
    PayloadBound(s[1..1 + w]);
    Some((if s[0] <= 0xfc then s[0] else BE(s[1..1 + w]), s[1 + w..]))
  }

  lemma PayloadBound(s: bytes)
    requires |s| == 0 || |s| == 2 || |s| == 4 || |s| == 8
    ensures BE(s) < TWO64
  {
    BEBound(s);
    Pow256Values();
    hide BE;
  }

  lemma LooseOfStrict(s: bytes)
    requires ReadBigSize(s).result.Ok?
    ensures ReadBigSize(s).result.value < TWO64
    ensures LooseBigSize(s) == Some((ReadBigSize(s).result.value, ReadBigSize(s).rest))
  {
    hide BE;
    BigSizeCanonical(s);
    var w := PayloadWidth(s[0]);
    assert s[1..][..w] == s[1..1 + w] && s[1..][w..] == s[1 + w..];
  }

  lemma LooseRoundTrip(v: u64, after: bytes)
    ensures LooseBigSize(BigSizeBytes(v) + after) == Some((v, after))
  {
    hide LooseBigSize, BigSizeBytes, ReadBigSize;
    BigSizeRoundTrip(v, after);
    LooseOfStrict(BigSizeBytes(v) + after);
  }

  method ReadBigsize(b: bytes, i: nat) returns (r: Option<(u64, nat)>)
    requires i <= |b|
    ensures LooseBigSize(b[i..]).None? <==> r.None?
    ensures r.Some? ==> i < r.value.1 <= |b| && LooseBigSize(b[i..]) == Some((r.value.0, b[r.value.1..]))
  {
    hide BE;
    if i >= |b| { return None; }
    var first, next := b[i], i + 1;
    var width := if first == 0xff then 8 else if first == 0xfe then 4 else if first == 0xfd then 2 else 0;
    if |b| - next < width { return None; }
    assert b[i..][1..1 + width] == b[next..next + width] && b[i..][1 + width..] == b[next + width..];
    PayloadBound(b[next..next + width]);
    r := Some((if width == 0 then first else BE(b[next..next + width]), next + width));
  }

  /** What is left after `k` bytes; nothing past the end. */
  function Drop(s: bytes, k: nat): bytes {
    if k <= |s| then s[k..] else []
  }

  /** A list one longer, unless the rest panicked. */
  function Cons<T>(x: T, rest: Option<seq<T>>): Option<seq<T>> {
    if rest.Some? then Some([x] + rest.value) else None
  }

  function Joined<T>(a: seq<T>, rest: Option<seq<T>>): Option<seq<T>> {
    if rest.Some? then Some(a + rest.value) else None
  }

  lemma JoinedCons<T>(a: seq<T>, x: T, rest: Option<seq<T>>)
    ensures Joined(a, Cons(x, rest)) == Joined(a + [x], rest)
  {
    if rest.Some? { assert a + ([x] + rest.value) == a + [x] + rest.value; }
  }

  lemma JoinedNone<T>(a: seq<T>)
    ensures Joined(a, Some([])) == Some(a) && Joined(a, None) == None
  {
    assert a + [] == a;
  }

  lemma JoinedStart<T>(rest: Option<seq<T>>)
    ensures Joined([], rest) == rest
  {
    if rest.Some? { assert [] + rest.value == rest.value; }
  }

  /** A length-prefixed string, and what follows it. */
  function LooseBlob(s: bytes): Option<(Blob, bytes)> {
    var len := LooseBigSize(s);
    if len.None? || |len.value.1| < len.value.0 then None
    else Some((len.value.1[..len.value.0], len.value.1[len.value.0..]))
  }

  lemma BlobRoundTrip(v: Blob, after: bytes)
    ensures LooseBlob(VarBytes(v) + after) == Some((v, after))
  {
    hide LooseBigSize, BigSizeBytes;
    LooseRoundTrip(|v|, v + after);
    assert VarBytes(v) + after == BigSizeBytes(|v|) + (v + after);
    assert (v + after)[..|v|] == v && (v + after)[|v|..] == after;
  }

  lemma BlobShrinks(s: bytes)
    ensures LooseBlob(s).Some? ==> |LooseBlob(s).value.1| < |s|
  {
    hide BE;
  }

  /** The next `n` proofs; each is followed by 32 bytes that nobody looks at, so the last
      ones may even be missing. */
  function SplitProofs(s: bytes, n: nat): Option<seq<Blob>>
    decreases n
  {
    if n == 0 then Some([]) else
    var proof := LooseBlob(s);
    if proof.None? then None else Cons(proof.value.0, SplitProofs(Drop(proof.value.1, 32), n - 1))
  }

  function Split(data: bytes): Option<seq<Blob>> {
    var count := LooseBigSize(Drop(data, 8));
    if count.None? then None else SplitProofs(count.value.1, count.value.0)
  }

  lemma SplitStep(a: seq<Blob>, s: bytes, n: nat)
    ensures n == 0 ==> Joined(a, SplitProofs(s, n)) == Some(a)
    ensures n > 0 && LooseBlob(s).None? ==> Joined(a, SplitProofs(s, n)) == None
    ensures n > 0 && LooseBlob(s).Some? ==>
      Joined(a, SplitProofs(s, n)) ==
        Joined(a + [LooseBlob(s).value.0], SplitProofs(Drop(LooseBlob(s).value.1, 32), n - 1))
  {
    JoinedNone(a);
    if n > 0 && LooseBlob(s).Some? {
      JoinedCons(a, LooseBlob(s).value.0, SplitProofs(Drop(LooseBlob(s).value.1, 32), n - 1));
    }
    hide LooseBlob, Joined, Cons, Drop;
  }

  method SplitProofFile(data: bytes) returns (r: Option<seq<Blob>>)
    ensures r == Split(data)
  {
    hide LooseBigSize, SplitProofs, Joined;
    if |data| < 8 {
      NothingToRead();
      return None;
    }
    var count := ReadBigsize(data, 8);
    if count.None? { return None; }
    var (n, i) := count.value;
    var proofs: seq<Blob> := [];
    JoinedStart(SplitProofs(data[i..], n));
    for k := 0 to n
      invariant Joined(proofs, SplitProofs(Drop(data, i), n - k)) == Split(data)
    {
      SplitStep(proofs, Drop(data, i), n - k);
      if i > |data| {
        NothingToRead();
        return None;
      }
      var len := ReadBigsize(data, i);
      if len.None? { return None; }
      var (size, start) := len.value;
      if |data| - start < size { return None; }
      assert data[start..][..size] == data[start..start + size]
        && Drop(data[start..][size..], 32) == Drop(data, start + size + 32);
      proofs := proofs + [data[start..start + size]];
      i := start + size + 32;
    }
    SplitStep(proofs, Drop(data, i), 0);
    r := Some(proofs);
  }

  lemma NothingToRead()
    ensures LooseBigSize([]).None?
  {
  }

  // -------------------------------------------------------------------- building

  const GENESIS: Word :=
    [0, 0, 0, 0, 0, 0, 0, 0, 0, 0, 0, 0, 0, 0, 0, 0, 0, 0, 0, 0, 0, 0, 0, 0, 0, 0, 0, 0, 0, 0, 0, 0]

  /** The proofs with their links, from a previous link on. */
  function Links(sha: Digest, prev: Word, proofs: seq<Blob>): bytes
    decreases |proofs|
  {
    if |proofs| == 0 then [] else
    var link := sha(prev + proofs[0]);
    VarBytes(proofs[0]) + link + Links(sha, link, proofs[1..])
  }

  function FileHead(version: u32, count: u64): bytes {
    FILE_MAGIC + ToBE(version, 4) + BigSizeBytes(count)
  }

  predicate Countable(proofs: seq<Blob>) {
    |proofs| < 0x1_0000_0000_0000_0000
  }

  function FileBytes(sha: Digest, version: u32, proofs: seq<Blob>): bytes
    requires Countable(proofs)
  {
    FileHead(version, |proofs|) + Links(sha, GENESIS, proofs)
  }

  lemma {:induction false} LinksSplit(sha: Digest, prev: Word, a: seq<Blob>, p: Blob)
    ensures Links(sha, prev, a + [p]) == Links(sha, prev, a) + VarBytes(p) + sha(HeadFrom(sha, prev, a) + p)
    decreases |a|
  {
    hide VarBytes;
    if |a| == 0 {
      assert a + [p] == [p] && [p][1..] == [];
    } else {
      assert (a + [p])[1..] == a[1..] + [p];
      LinksSplit(sha, sha(prev + a[0]), a[1..], p);
    }
  }

  /** The head of the chain after some proofs. */
  function HeadFrom(sha: Digest, prev: Word, proofs: seq<Blob>): Word
    decreases |proofs|
  {
    if |proofs| == 0 then prev else HeadFrom(sha, sha(prev + proofs[0]), proofs[1..])
  }

  lemma {:induction false} HeadSplit(sha: Digest, prev: Word, a: seq<Blob>, p: Blob)
    ensures HeadFrom(sha, prev, a + [p]) == sha(HeadFrom(sha, prev, a) + p)
    decreases |a|
  {
    if |a| == 0 {
      assert a + [p] == [p] && [p][1..] == [];
    } else {
      assert (a + [p])[1..] == a[1..] + [p];
      HeadSplit(sha, sha(prev + a[0]), a[1..], p);
    }
  }

  method BuildProofFile(sha: Digest, proofs: seq<Blob>) returns (out: bytes)
    requires Countable(proofs)
    ensures out == FileBytes(sha, 0, proofs)
  {
    hide VarBytes, BigSizeBytes, ToBE;
    out := FILE_MAGIC;
    out := out + ToBE(0, 4);
    out := out + BigSizeBytes(|proofs|);
    var prev := GENESIS;
    for i := 0 to |proofs|
      invariant out == FileHead(0, |proofs|) + Links(sha, GENESIS, proofs[..i])
      invariant prev == HeadFrom(sha, GENESIS, proofs[..i])
    {
      var p := proofs[i];
      LinksSplit(sha, GENESIS, proofs[..i], p);
      HeadSplit(sha, GENESIS, proofs[..i], p);
      assert proofs[..i + 1] == proofs[..i] + [p];
      out := out + VarBytes(p);
      var h := sha(prev + p);
      out := out + h;
      prev := h;
    }
    assert proofs[..|proofs|] == proofs;
  }

  lemma {:induction false} SplitOfLinks(sha: Digest, prev: Word, proofs: seq<Blob>)
    ensures SplitProofs(Links(sha, prev, proofs), |proofs|) == Some(proofs)
    decreases |proofs|
  {
    if |proofs| > 0 {
      hide LooseBlob, VarBytes;
      var link: Word := sha(prev + proofs[0]);
      var rest := Links(sha, link, proofs[1..]);
      assert Links(sha, prev, proofs) == VarBytes(proofs[0]) + (link + rest);
      BlobRoundTrip(proofs[0], link + rest);
      assert (link + rest)[32..] == rest;
      SplitOfLinks(sha, link, proofs[1..]);
      assert [proofs[0]] + proofs[1..] == proofs;
    }
  }

  lemma FileParts(sha: Digest, version: u32, proofs: seq<Blob>)
    requires Countable(proofs)
    ensures var data := FileBytes(sha, version, proofs);
      && |data| >= 8 && data[..4] == FILE_MAGIC && data[4..8] == ToBE(version, 4)
      && data[8..] == BigSizeBytes(|proofs|) + Links(sha, GENESIS, proofs)
  {
    hide ToBE, BigSizeBytes, Links;
  }

  /** Splitting a built file gives the proofs back, whatever they are. */
  lemma SplitOfBuild(sha: Digest, version: u32, proofs: seq<Blob>)
    requires Countable(proofs)
    ensures Split(FileBytes(sha, version, proofs)) == Some(proofs)
  {
    hide LooseBigSize, SplitProofs, Links, BigSizeBytes, FileBytes;
    FileParts(sha, version, proofs);
    LooseRoundTrip(|proofs|, Links(sha, GENESIS, proofs));
    SplitOfLinks(sha, GENESIS, proofs);
  }

  // --------------------------------------------------------------------- records

  function LooseRecords(s: bytes): Option<seq<Record>>
    decreases |s|
  {
    if |s| == 0 then Some([]) else
    var kind := LooseBigSize(s);
    if kind.None? then None else
    var value := LooseBlob(kind.value.1);
    if value.None? then None else
    BlobShrinks(kind.value.1);
    Cons(Record(kind.value.0, value.value.0), LooseRecords(value.value.1))
  }

  /** The records of a single proof; its first four bytes are not looked at. */
  function Records(blob: bytes): Option<seq<Record>> {
    LooseRecords(Drop(blob, 4))
  }

  function RecordBytes(r: Record): bytes {
    BigSizeBytes(r.kind) + VarBytes(r.value)
  }

  function RecordsBytes(recs: seq<Record>): bytes {
    if |recs| == 0 then [] else RecordBytes(recs[0]) + RecordsBytes(recs[1..])
  }

  lemma {:induction false} RecordsSplit(a: seq<Record>, r: Record)
    ensures RecordsBytes(a + [r]) == RecordsBytes(a) + RecordBytes(r)
  {
    hide RecordBytes;
    if |a| == 0 {
      assert a + [r] == [r] && [r][1..] == [];
    } else {
      assert (a + [r])[1..] == a[1..] + [r];
      RecordsSplit(a[1..], r);
    }
  }

  function KindOf(): Record -> int {
    (r: Record) => r.kind
  }

  function Encoded(recs: seq<Record>): bytes {
    PROOF_MAGIC + RecordsBytes(SortBy(recs, KindOf()))
  }

  method EncodeProofRecords(recs: seq<Record>) returns (out: bytes)
    ensures out == Encoded(recs)
  {
    hide RecordBytes, VarBytes, BigSizeBytes;
    var sorted := SortBy(recs, KindOf());
    out := PROOF_MAGIC;
    for i := 0 to |sorted|
      invariant out == PROOF_MAGIC + RecordsBytes(sorted[..i])
    {
      RecordsSplit(sorted[..i], sorted[i]);
      assert sorted[..i + 1] == sorted[..i] + [sorted[i]];
      out := out + RecordBytes(sorted[i]);
    }
    assert sorted[..|sorted|] == sorted;
  }

  lemma RecordsStep(a: seq<Record>, s: bytes)
    ensures |s| == 0 ==> Joined(a, LooseRecords(s)) == Some(a)
    ensures |s| > 0 && LooseBigSize(s).None? ==> Joined(a, LooseRecords(s)) == None
    ensures |s| > 0 && LooseBigSize(s).Some? && LooseBlob(LooseBigSize(s).value.1).None? ==>
      Joined(a, LooseRecords(s)) == None
    ensures |s| > 0 && LooseBigSize(s).Some? && LooseBlob(LooseBigSize(s).value.1).Some? ==>
      var (kind, rest) := LooseBigSize(s).value;
      Joined(a, LooseRecords(s)) ==
        Joined(a + [Record(kind, LooseBlob(rest).value.0)], LooseRecords(LooseBlob(rest).value.1))
  {
    JoinedNone(a);
    if |s| > 0 && LooseBigSize(s).Some? && LooseBlob(LooseBigSize(s).value.1).Some? {
      var (kind, rest) := LooseBigSize(s).value;
      JoinedCons(a, Record(kind, LooseBlob(rest).value.0), LooseRecords(LooseBlob(rest).value.1));
    }
    hide LooseBlob, LooseBigSize, Joined, Cons;
  }

  method ParseProofRecords(blob: bytes) returns (r: Option<seq<Record>>)
    ensures r == Records(blob)
  {
    hide LooseBigSize, LooseRecords, Joined;
    var i := 4;
    var recs: seq<Record> := [];
    JoinedStart(LooseRecords(Drop(blob, 4)));
    while i < |blob|
      invariant Joined(recs, LooseRecords(Drop(blob, i))) == Records(blob)
      invariant i == 4 || i <= |blob|
    {
      RecordsStep(recs, Drop(blob, i));
      var kind := ReadBigsize(blob, i);
      if kind.None? { return None; }
      var len := ReadBigsize(blob, kind.value.1);
      if len.None? { return None; }
      var (size, start) := len.value;
      if |blob| - start < size { return None; }
      assert blob[start..][..size] == blob[start..start + size] && blob[start..][size..] == blob[start + size..];
      recs := recs + [Record(kind.value.0, blob[start..start + size])];
      i := start + size;
    }
    RecordsStep(recs, Drop(blob, i));
    r := Some(recs);
  }

  lemma RecordsHead(recs: seq<Record>)
    requires |recs| > 0
    ensures RecordsBytes(recs) ==
      BigSizeBytes(recs[0].kind) + (VarBytes(recs[0].value) + RecordsBytes(recs[1..]))
  {
    hide BigSizeBytes, VarBytes;
  }

  lemma {:induction false} RecordsRoundTrip(recs: seq<Record>)
    ensures LooseRecords(RecordsBytes(recs)) == Some(recs)
  {
    if |recs| > 0 {
      var r, rest := recs[0], RecordsBytes(recs[1..]);
      hide *;
      RecordsHead(recs);
      LooseRoundTrip(r.kind, VarBytes(r.value) + rest);
      BlobRoundTrip(r.value, rest);
      NotEmpty(r, rest);
      RecordsRoundTrip(recs[1..]);
      LooseStep(RecordsBytes(recs), r, VarBytes(r.value) + rest, rest, recs[1..]);
      assert [r] + recs[1..] == recs;
    }
  }

  lemma LooseStep(s: bytes, r: Record, after: bytes, rest: bytes, recs: seq<Record>)
    requires |s| > 0 && LooseBigSize(s) == Some((r.kind, after)) && LooseBlob(after) == Some((r.value, rest))
    requires LooseRecords(rest) == Some(recs)
    ensures LooseRecords(s) == Some([r] + recs)
  {
    hide LooseBigSize, LooseBlob;
  }

  lemma NotEmpty(r: Record, rest: bytes)
    ensures |BigSizeBytes(r.kind) + (VarBytes(r.value) + rest)| > 0
  {
  }

  /** Re-encoded records read back sorted. */
  lemma RecordsOfEncoded(recs: seq<Record>)
    ensures Records(Encoded(recs)) == Some(SortBy(recs, KindOf()))
  {
    hide RecordsBytes, LooseRecords, SortBy;
    var sorted := SortBy(recs, KindOf());
    RecordsRoundTrip(sorted);
    assert (PROOF_MAGIC + RecordsBytes(sorted))[4..] == RecordsBytes(sorted);
  }

  // ------------------------------------------------------- completing a transition

  /** The value of the first record of a kind. */
  function Find(recs: seq<Record>, kind: u64): Option<Blob> {
    if |recs| == 0 then None else
    var r := Find(recs[..|recs| - 1], kind);
    if r.Some? then r else if recs[|recs| - 1].kind == kind then Some(recs[|recs| - 1].value) else None
  }

  function WithoutAnchors(recs: seq<Record>): seq<Record> {
    if |recs| == 0 then [] else
    WithoutAnchors(recs[..|recs| - 1]) + if recs[|recs| - 1].kind in ANCHOR_KINDS then [] else [recs[|recs| - 1]]
  }

  /** The sibling's records of the first `k` anchor kinds, where it has them. */
  function Anchors(sibling: seq<Record>, k: nat): seq<Record>
    requires k <= |ANCHOR_KINDS|
  {
    if k == 0 then [] else
    var v := Find(sibling, ANCHOR_KINDS[k - 1]);
    Anchors(sibling, k - 1) + if v.Some? then [Record(ANCHOR_KINDS[k - 1], v.value)] else []
  }

  function Merged(partial: seq<Record>, sibling: seq<Record>): seq<Record> {
    SortBy(WithoutAnchors(partial) + Anchors(sibling, |ANCHOR_KINDS|), KindOf())
  }

  function Completed(partial: bytes, sibling: bytes): Option<bytes> {
    var sib, part := Records(sibling), Records(partial);
    if sib.None? || part.None? then None
      else Some(Encoded(WithoutAnchors(part.value) + Anchors(sib.value, |ANCHOR_KINDS|)))
  }

  method CompleteTransition(partial: bytes, sibling: bytes) returns (r: Option<bytes>)
    ensures r == Completed(partial, sibling)
  {
    hide Records, Encoded, Find;
    var sib := ParseProofRecords(sibling);
    if sib.None? { return None; }
    var part := ParseProofRecords(partial);
    if part.None? { return None; }
    var recs: seq<Record> := [];
    for i := 0 to |part.value|
      invariant recs == WithoutAnchors(part.value[..i])
    {
      assert part.value[..i + 1][..i] == part.value[..i];
      if part.value[i].kind !in ANCHOR_KINDS { recs := recs + [part.value[i]]; }
    }
    assert part.value[..|part.value|] == part.value;
    for k := 0 to |ANCHOR_KINDS|
      invariant recs == WithoutAnchors(part.value) + Anchors(sib.value, k)
    {
      var found := Find(sib.value, ANCHOR_KINDS[k]);
      if found.Some? { recs := recs + [Record(ANCHOR_KINDS[k], found.value)]; }
    }
    var out := EncodeProofRecords(recs);
    r := Some(out);
  }

  lemma FindPush(recs: seq<Record>, r: Record, kind: u64)
    ensures Find(recs + [r], kind) == if Find(recs, kind).Some? then Find(recs, kind)
      else if r.kind == kind then Some(r.value) else None
  {
    assert (recs + [r])[..|recs|] == recs;
  }

  lemma {:induction false} FindConcat(a: seq<Record>, b: seq<Record>, kind: u64)
    ensures Find(a + b, kind) == if Find(a, kind).Some? then Find(a, kind) else Find(b, kind)
  {
    if |b| == 0 {
      assert a + b == a;
    } else {
      var init, last := b[..|b| - 1], b[|b| - 1];
      FindConcat(a, init, kind);
      assert a + b == (a + init) + [last] && b == init + [last];
      FindPush(a + init, last, kind);
      FindPush(init, last, kind);
    }
  }

  /** A stable sort keeps the first record of every kind first. */
  lemma {:induction false} FindInserted(r: Record, s: seq<Record>, kind: u64)
    ensures Find(Insert(r, s, KindOf()), kind) == if Find(s, kind).Some? then Find(s, kind)
      else if r.kind == kind then Some(r.value) else None
  {
    if |s| == 0 {
      FindPush([], r, kind);
      assert [] + [r] == [r];
    } else {
      var init, last := s[..|s| - 1], s[|s| - 1];
      assert s == init + [last];
      FindPush(s, r, kind);
      FindPush(init, last, kind);
      if KindOf()(r) < KindOf()(last) {
        FindInserted(r, init, kind);
        FindPush(Insert(r, init, KindOf()), last, kind);
      }
    }
  }

  lemma {:induction false} FindSorted(s: seq<Record>, kind: u64)
    ensures Find(SortBy(s, KindOf()), kind) == Find(s, kind)
  {
    if |s| > 0 {
      hide Insert;
      FindSorted(s[..|s| - 1], kind);
      FindInserted(s[|s| - 1], SortBy(s[..|s| - 1], KindOf()), kind);
    }
  }

  lemma {:induction false} FindKept(recs: seq<Record>, kind: u64)
    ensures Find(WithoutAnchors(recs), kind) == if kind in ANCHOR_KINDS then None else Find(recs, kind)
  {
    if |recs| > 0 {
      var init, last := recs[..|recs| - 1], recs[|recs| - 1];
      FindKept(init, kind);
      if last.kind in ANCHOR_KINDS {
        assert WithoutAnchors(init) + [] == WithoutAnchors(init);
      } else {
        FindPush(WithoutAnchors(init), last, kind);
      }
    }
  }

  lemma NoneTaken(sibling: seq<Record>, kind: u64)
    ensures Find(Anchors(sibling, 0), kind) == None
  {
  }

  lemma AnchorStep(sibling: seq<Record>, k: nat)
    requires 0 < k <= |ANCHOR_KINDS|
    ensures Anchors(sibling, k) ==
      match Find(sibling, ANCHOR_KINDS[k - 1]) {
        case None => Anchors(sibling, k - 1)
        case Some(v) => Anchors(sibling, k - 1) + [Record(ANCHOR_KINDS[k - 1], v)]
      }
  {
    hide Find;
    assert Anchors(sibling, k - 1) + [] == Anchors(sibling, k - 1);
  }

  lemma {:induction false} FindAnchor(sibling: seq<Record>, k: nat, kind: u64)
    requires k <= |ANCHOR_KINDS|
    ensures Find(Anchors(sibling, k), kind) == if kind in ANCHOR_KINDS[..k] then Find(sibling, kind) else None
  {
    hide *;
    if k == 0 {
      NoneTaken(sibling, kind);
    } else {
      var t := ANCHOR_KINDS[k - 1];
      assert ANCHOR_KINDS[..k] == ANCHOR_KINDS[..k - 1] + [t];
      AnchorStep(sibling, k);
      FindAnchor(sibling, k - 1, kind);
      var v := Find(sibling, t);
      if v.Some? {
        FindPush(Anchors(sibling, k - 1), Record(t, v.value), kind);
      }
    }
  }

  /** Anchor records come from the sibling only, all others from the partial proof only. */
  lemma MergedHas(partial: seq<Record>, sibling: seq<Record>, kind: u64)
    ensures Find(Merged(partial, sibling), kind) == if kind in {4, 6, 8, 22} then Find(sibling, kind)
      else Find(partial, kind)
  {
    hide Find, WithoutAnchors, Anchors, SortBy;
    var n := |ANCHOR_KINDS|;
    FindSorted(WithoutAnchors(partial) + Anchors(sibling, n), kind);
    FindConcat(WithoutAnchors(partial), Anchors(sibling, n), kind);
    FindKept(partial, kind);
    FindAnchor(sibling, n, kind);
    assert ANCHOR_KINDS[..n] == ANCHOR_KINDS;
  }

  // ------------------------------------------------------------------------ order

  predicate DistinctKinds(recs: seq<Record>) {
    forall i, j :: 0 <= i < j < |recs| ==> recs[i].kind != recs[j].kind
  }

  lemma KindsPermuted(a: seq<Record>, b: seq<Record>)
    requires multiset(a) == multiset(b)
    ensures DistinctKinds(a) <==> DistinctKinds(b)
  {
    DistinctPermuted(a, b, KindOf());
    KindKeys(a);
    KindKeys(b);
    hide DistinctBy, DistinctKinds;
  }

  lemma KindKeys(recs: seq<Record>)
    ensures DistinctBy(recs, KindOf()) <==> DistinctKinds(recs)
  {
    assert forall i :: 0 <= i < |recs| ==> KindOf()(recs[i]) == recs[i].kind;
  }

  lemma {:induction false} NoAnchors(recs: seq<Record>)
    ensures forall i :: 0 <= i < |WithoutAnchors(recs)| ==>
      WithoutAnchors(recs)[i].kind !in ANCHOR_KINDS && WithoutAnchors(recs)[i] in recs
  {
    if |recs| > 0 {
      NoAnchors(recs[..|recs| - 1]);
      assert recs == recs[..|recs| - 1] + [recs[|recs| - 1]];
    }
  }

  lemma {:induction false} OnlyAnchors(sibling: seq<Record>, k: nat)
    requires k <= |ANCHOR_KINDS|
    ensures DistinctKinds(Anchors(sibling, k))
    ensures forall i :: 0 <= i < |Anchors(sibling, k)| ==> Anchors(sibling, k)[i].kind in ANCHOR_KINDS[..k]
  {
    hide Find;
    if k > 0 {
      OnlyAnchors(sibling, k - 1);
      assert ANCHOR_KINDS[..k] == ANCHOR_KINDS[..k - 1] + [ANCHOR_KINDS[k - 1]];
      assert ANCHOR_KINDS[k - 1] !in ANCHOR_KINDS[..k - 1];
    }
  }

  /** Only the anchor kinds may be repeated. */
  predicate RepeatsAnchors(recs: seq<Record>) {
    forall i, j :: 0 <= i < j < |recs| && recs[i].kind == recs[j].kind ==> recs[i].kind in {4, 6, 8, 22}
  }

  lemma {:induction false} KeptKind(recs: seq<Record>, kind: u64)
    ensures (exists i :: 0 <= i < |WithoutAnchors(recs)| && WithoutAnchors(recs)[i].kind == kind) <==>
      kind !in {4, 6, 8, 22} && exists i :: 0 <= i < |recs| && recs[i].kind == kind
  {
    if |recs| > 0 {
      var before, last := recs[..|recs| - 1], recs[|recs| - 1];
      KeptKind(before, kind);
      assert WithoutAnchors(recs) == WithoutAnchors(before) + if last.kind in ANCHOR_KINDS then [] else [last];
      hide WithoutAnchors;
      var w, w' := WithoutAnchors(before), WithoutAnchors(recs);
      if exists i :: 0 <= i < |before| && before[i].kind == kind {
        var i :| 0 <= i < |before| && before[i].kind == kind;
        assert recs[i].kind == kind;
        if kind !in {4, 6, 8, 22} {
          var k :| 0 <= k < |w| && w[k].kind == kind;
          assert w'[k].kind == kind;
        }
      }
      if last.kind == kind && kind !in {4, 6, 8, 22} { assert w'[|w|].kind == kind; }
    }
  }

  lemma {:induction false} KeptDistinct(recs: seq<Record>)
    ensures DistinctKinds(WithoutAnchors(recs)) <==> RepeatsAnchors(recs)
  {
    if |recs| > 0 {
      var before, last := recs[..|recs| - 1], recs[|recs| - 1];
      KeptDistinct(before);
      KeptKind(before, last.kind);
      assert WithoutAnchors(recs) == WithoutAnchors(before) + if last.kind in ANCHOR_KINDS then [] else [last];
      hide WithoutAnchors;
      var w, w' := WithoutAnchors(before), WithoutAnchors(recs);
      RepeatsSnoc(before, last);
      assert before + [last] == recs;
      if last.kind in ANCHOR_KINDS {
        assert w' == w;
      } else {
        DistinctSnoc(w, last);
      }
    }
  }

  lemma DistinctSnoc(recs: seq<Record>, r: Record)
    ensures DistinctKinds(recs + [r]) <==>
      DistinctKinds(recs) && !exists i :: 0 <= i < |recs| && recs[i].kind == r.kind
  {
    var all := recs + [r];
    if DistinctKinds(all) {
      forall i, j | 0 <= i < j < |recs|
        ensures recs[i].kind != recs[j].kind
      {
        assert all[i].kind != all[j].kind;
      }
      forall i | 0 <= i < |recs|
        ensures recs[i].kind != r.kind
      {
        assert all[i].kind != all[|recs|].kind;
      }
    }
  }

  lemma RepeatsSnoc(recs: seq<Record>, r: Record)
    ensures RepeatsAnchors(recs + [r]) <==>
      RepeatsAnchors(recs) && (r.kind in {4, 6, 8, 22} || !exists i :: 0 <= i < |recs| && recs[i].kind == r.kind)
  {
    var all := recs + [r];
    if RepeatsAnchors(all) {
      forall i, j | 0 <= i < j < |recs| && recs[i].kind == recs[j].kind
        ensures recs[i].kind in {4, 6, 8, 22}
      {
        assert all[i].kind == all[j].kind;
      }
      if i :| 0 <= i < |recs| && recs[i].kind == r.kind { assert all[i].kind == all[|recs|].kind; }
    }
  }

  lemma MergedAscends(partial: seq<Record>, sibling: seq<Record>)
    ensures StrictlyAscending(Merged(partial, sibling), KindOf()) <==> DistinctKinds(WithoutAnchors(partial))
  {
    var kept, anchors := WithoutAnchors(partial), Anchors(sibling, |ANCHOR_KINDS|);
    NoAnchors(partial);
    OnlyAnchors(sibling, |ANCHOR_KINDS|);
    SortAscends(kept + anchors, KindOf());
    KindsPermuted(Merged(partial, sibling), kept + anchors);
    hide SortBy, WithoutAnchors, Anchors;
    assert ANCHOR_KINDS[..|ANCHOR_KINDS|] == ANCHOR_KINDS;
    DistinctConcat(kept, anchors);
    StrictIff(Merged(partial, sibling));
  }

  /** The completed proof's records are in strictly ascending order exactly when the partial
      proof repeats no kind outside the anchor ones. */
  lemma MergedAscendsIff(partial: seq<Record>, sibling: seq<Record>)
    ensures StrictlyAscending(Merged(partial, sibling), KindOf()) <==> RepeatsAnchors(partial)
  {
    hide *;
    MergedAscends(partial, sibling);
    KeptDistinct(partial);
  }

  lemma StrictIff(recs: seq<Record>)
    requires Ascending(recs, KindOf())
    ensures StrictlyAscending(recs, KindOf()) <==> DistinctKinds(recs)
  {
    assert forall i :: 0 <= i < |recs| ==> KindOf()(recs[i]) == recs[i].kind;
  }

  lemma DistinctConcat(a: seq<Record>, b: seq<Record>)
    requires DistinctKinds(b) && forall i, j :: 0 <= i < |a| && 0 <= j < |b| ==> a[i].kind != b[j].kind
    ensures DistinctKinds(a + b) <==> DistinctKinds(a)
  {
    if DistinctKinds(a + b) {
      forall i, j | 0 <= i < j < |a|
        ensures a[i].kind != a[j].kind
      {
        assert (a + b)[i] == a[i] && (a + b)[j] == a[j];
      }
    }
  }

  lemma {:induction false} DistinctKept(recs: seq<Record>)
    requires DistinctKinds(recs)
    ensures DistinctKinds(WithoutAnchors(recs))
  {
    if |recs| > 0 {
      DistinctKept(recs[..|recs| - 1]);
      NoAnchors(recs[..|recs| - 1]);
    }
  }

  /** In particular, a partial proof in order gives a completed proof in order. */
  lemma OrderKept(partial: seq<Record>, sibling: seq<Record>)
    requires StrictlyAscending(partial, KindOf())
    ensures StrictlyAscending(Merged(partial, sibling), KindOf())
  {
    StrictIff(partial);
    DistinctKept(partial);
    MergedAscends(partial, sibling);
  }

  // --------------------------------------------------------------------- assembling

  /** The whole assembly; the length test is what a 64-bit memory imposes. */
  function Assembled(sha: Digest, changeFile: bytes, partial: bytes): Option<bytes> {
    var proofs := Split(changeFile);
    if proofs.None? || |proofs.value| == 0 || !Countable(proofs.value) then None else
    var n := |proofs.value| - 1;
    var full := Completed(partial, proofs.value[n]);
    if full.None? || !Fits(full.value) then None else Some(FileBytes(sha, 0, proofs.value[..n] + [full.value]))
  }

  method AssembleExternalProofFile(sha: Digest, changeFile: bytes, partial: bytes) returns (r: Option<bytes>)
    ensures r == Assembled(sha, changeFile, partial)
  {
    hide Split, Completed, FileBytes;
    var proofs := SplitProofFile(changeFile);
    if proofs.None? || |proofs.value| == 0 || !Countable(proofs.value) { return None; }
    var n := |proofs.value| - 1;
    var full := CompleteTransition(partial, proofs.value[n]);
    if full.None? || !Fits(full.value) { return None; }
    var out := BuildProofFile(sha, proofs.value[..n] + [full.value]);
    r := Some(out);
  }

  /** The assembled file holds all proofs of the change file but the last, and then the
      external output's: its own records, with the anchor records of the last. */
  lemma AssembledHolds(sha: Digest, changeFile: bytes, partial: bytes)
    requires Assembled(sha, changeFile, partial).Some?
    ensures Split(changeFile).Some? && |Split(changeFile).value| > 0
    ensures var proofs := Split(changeFile).value;
      var kept, last := proofs[..|proofs| - 1], proofs[|proofs| - 1];
      && Records(partial).Some? && Records(last).Some? && Completed(partial, last).Some?
      && Fits(Completed(partial, last).value)
      && Split(Assembled(sha, changeFile, partial).value) == Some(kept + [Completed(partial, last).value])
      && Records(Completed(partial, last).value) == Some(Merged(Records(partial).value, Records(last).value))
  {
    hide Split, FileBytes, Records, WithoutAnchors, Anchors, Encoded;
    var proofs := Split(changeFile).value;
    var n := |proofs| - 1;
    var full := Completed(partial, proofs[n]).value;
    SplitOfBuild(sha, 0, proofs[..n] + [full]);
    RecordsOfEncoded(WithoutAnchors(Records(partial).value) + Anchors(Records(proofs[n]).value, |ANCHOR_KINDS|));
  }

  // ---------------------------------------------------------------- the hash chain

  predicate Collide(sha: Digest, a: bytes, b: bytes) {
    a != b && sha(a) == sha(b)
  }

  /** Two chains of one length with one head meet different inputs with one link. */
  predicate ChainCollides(sha: Digest, a: seq<Blob>, b: seq<Blob>)
    requires |a| == |b|
  {
    |a| > 0 && var n := |a| - 1;
    || Collide(sha, HeadFrom(sha, GENESIS, a[..n]) + a[n], HeadFrom(sha, GENESIS, b[..n]) + b[n])
    || ChainCollides(sha, a[..n], b[..n])
  }

  lemma SplitJoin(x: Word, a: bytes, y: Word, b: bytes)
    requires x + a == y + b
    ensures x == y && a == b
  {
    assert (x + a)[..32] == x && (y + b)[..32] == y;
    assert (x + a)[32..] == a && (y + b)[32..] == b;
  }

  /** The head of the chain binds the proofs. */
  lemma {:induction false} ChainBinds(sha: Digest, a: seq<Blob>, b: seq<Blob>)
    requires |a| == |b| && HeadFrom(sha, GENESIS, a) == HeadFrom(sha, GENESIS, b)
    ensures a == b || ChainCollides(sha, a, b)
  {
    if |a| > 0 {
      var n := |a| - 1;
      assert a == a[..n] + [a[n]] && b == b[..n] + [b[n]];
      HeadSplit(sha, GENESIS, a[..n], a[n]);
      HeadSplit(sha, GENESIS, b[..n], b[n]);
      var x, y := HeadFrom(sha, GENESIS, a[..n]), HeadFrom(sha, GENESIS, b[..n]);
      hide HeadFrom;
      if x + a[n] == y + b[n] {
        SplitJoin(x, a[n], y, b[n]);
        ChainBinds(sha, a[..n], b[..n]);
      }
    }
  }
}
