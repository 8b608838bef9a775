/**
 The hash chain over privileged actions: the hashed material, the replaying
 verifier, and what an accepted chain commits to. The digest function is a
 parameter; nothing is assumed of it beyond the shape of its output.
 */
module AuditChain {
  import opened Wrappers
  import opened Timestamps

  predicate IsHexDigit(c: char) {
    '0' <= c <= '9' || 'a' <= c <= 'f'
  }

  /** The canonical 8-4-4-4-12 text of a UUID, which identifies the UUID. */
  predicate IsUuidText(s: string) {
    && |s| == 36
    && forall i :: 0 <= i < 36 ==> if i in {8, 13, 18, 23} then s[i] == '-' else IsHexDigit(s[i])
  }

  type Uuid = s: string | IsUuidText(s) witness "00000000-0000-0000-0000-000000000000"

  predicate IsDigestText(s: string) {
    |s| == 64 && forall i :: 0 <= i < 64 ==> IsHexDigit(s[i])
  }

  function Zeros(n: nat): (s: string)
    ensures |s| == n && forall i :: 0 <= i < n ==> s[i] == '0'
  {
    if n == 0 then "" else Zeros(n - 1) + "0"
  }

  type Digest = s: string | IsDigestText(s)
    witness Zeros(64)

  type HashFunction = string -> Digest

  const GENESIS_HASH: Digest := Zeros(64)

  datatype AuditRecord = AuditRecord(
    id: Uuid,
    actor: Uuid,
    action: string,
    subject: Option<Uuid>,
    occurredAt: DateTime,
    previousHash: string,
    eventHash: string)

  function SubjectText(subject: Option<Uuid>): string {
    match subject
    case None => ""
    case Some(s) => s
  }

  /** The hashed fields of a record, apart from the hash it continues. */
  datatype Content = Content(actor: Uuid, action: string, subject: Option<Uuid>, occurredAt: DateTime)

  function ContentOf(r: AuditRecord): Content {
    Content(r.actor, r.action, r.subject, r.occurredAt)
  }

  function Material(c: Content, previous: string): string {
    c.actor + "|" + c.action + "|" + SubjectText(c.subject) + "|" + PrintDateTime(c.occurredAt) + "|" + previous
  }

  /** How the hash of an event follows from its content and the hash before it. */
  type EventDigest = (Content, string) -> Digest

  function EventHash(hash: HashFunction): EventDigest {
    (content: Content, previous: string) => hash(Material(content, previous))
  }

  /** Equal in every field but the row identifier, which is not hashed. */
  predicate SameContent(r: AuditRecord, s: AuditRecord) {
    r == s.(id := r.id)
  }

  function Tip(records: seq<AuditRecord>): string {
    if records == [] then GENESIS_HASH else records[|records| - 1].eventHash
  }

  /** Record `r` follows a chain ending in `previous`. */
  predicate Links(digest: EventDigest, r: AuditRecord, previous: string) {
    r.previousHash == previous && r.eventHash == digest(ContentOf(r), previous)
  }

  predicate LinkedAt(digest: EventDigest, records: seq<AuditRecord>, i: nat)
    requires i < |records|
  {
    Links(digest, records[i], Tip(records[..i]))
  }

  ghost predicate IsChain(digest: EventDigest, records: seq<AuditRecord>) {
    forall i :: 0 <= i < |records| ==> LinkedAt(digest, records, i)
  }

  method VerifyChain(digest: EventDigest, records: seq<AuditRecord>) returns (ok: bool)
    ensures ok <==> IsChain(digest, records)
  {
    var previous: string := GENESIS_HASH;
    for i := 0 to |records|
      invariant previous == Tip(records[..i])
      invariant forall j :: 0 <= j < i ==> LinkedAt(digest, records, j)
    {
      var record := records[i];
      assert LinkedAt(digest, records, i) <==> Links(digest, record, previous);
      if record.previousHash != previous {
        return false;
      }
      var expected := digest(ContentOf(record), previous);
      if record.eventHash != expected {
        return false;
      }
      previous := record.eventHash;
    }
    return true;
  }

  // ------------------------------------------------- injectivity of the join

  /** Two texts that agree and whose last separators can be seen agree on both sides. */
  lemma SplitAtLastBar(x: string, y: string, x': string, y': string)
    requires '|' !in y && '|' !in y'
    requires x + "|" + y == x' + "|" + y'
    ensures x == x' && y == y'
  {
    var s := x + "|" + y;
    assert s[|x|] == '|' && s[|x'|] == '|';
    assert forall k :: |x| < k < |s| ==> s[k] == y[k - |x| - 1];
    assert forall k :: |x'| < k < |s| ==> s[k] == y'[k - |x'| - 1];
    assert |x| == |x'|;
    assert s[..|x|] == x && s[..|x|] == x';
    assert s[|x| + 1..] == y && s[|x| + 1..] == y';
  }

  /** Five joined fields can be told apart when the first has a known length and the last three no separator. */
  lemma JoinInjective(a: string, b: string, c: string, d: string, e: string,
                      a': string, b': string, c': string, d': string, e': string)
    requires |a| == |a'|
    requires '|' !in c && '|' !in d && '|' !in e && '|' !in c' && '|' !in d' && '|' !in e'
    requires a + "|" + b + "|" + c + "|" + d + "|" + e == a' + "|" + b' + "|" + c' + "|" + d' + "|" + e'
    ensures a == a' && b == b' && c == c' && d == d' && e == e'
  {
    var head, head' := a + "|" + b, a' + "|" + b';
    SplitAtLastBar(head + "|" + c + "|" + d, e, head' + "|" + c' + "|" + d', e');
    SplitAtLastBar(head + "|" + c, d, head' + "|" + c', d');
    SplitAtLastBar(head, c, head', c');
    assert head[..|a|] == a && head'[..|a|] == a';
    assert head[|a| + 1..] == b && head'[|a| + 1..] == b';
  }

  lemma FieldsHaveNoBar(c: Content)
    ensures '|' !in SubjectText(c.subject) && '|' !in PrintDateTime(c.occurredAt)
  {
    TimestampHasNoBar(c.occurredAt);
  }

  lemma TimestampHasNoBar(t: DateTime)
    ensures '|' !in PrintDateTime(t)
  {
    DateTimeAlphabet(t);
  }

  /** The joined material determines every field, even when the action contains the separator. */
  lemma MaterialInjective(c: Content, p: string, c': Content, p': string)
    requires '|' !in p && '|' !in p'
    requires Material(c, p) == Material(c', p')
    ensures c == c' && p == p'
  {
    FieldsHaveNoBar(c);
    FieldsHaveNoBar(c');
    JoinInjective(c.actor, c.action, SubjectText(c.subject), PrintDateTime(c.occurredAt), p,
                  c'.actor, c'.action, SubjectText(c'.subject), PrintDateTime(c'.occurredAt), p');
    SubjectTextInjective(c.subject, c'.subject);
    PrintDateTimeInjective(c.occurredAt, c'.occurredAt);
  }

  lemma SubjectTextInjective(s: Option<Uuid>, s': Option<Uuid>)
    requires SubjectText(s) == SubjectText(s')
    ensures s == s'
  {
  }

  // ------------------------------------------------------------------ binding

  lemma ChainPrefix(digest: EventDigest, records: seq<AuditRecord>, n: nat)
    requires n <= |records| && IsChain(digest, records)
    ensures IsChain(digest, records[..n])
  {
    forall i | 0 <= i < n ensures LinkedAt(digest, records[..n], i) {
      assert records[..n][..i] == records[..i];
      assert LinkedAt(digest, records, i);
    }
  }

  lemma ChainExtends(digest: EventDigest, records: seq<AuditRecord>, r: AuditRecord)
    requires IsChain(digest, records) && Links(digest, r, Tip(records))
    ensures IsChain(digest, records + [r])
  {
    var longer := records + [r];
    forall i | 0 <= i < |longer| ensures LinkedAt(digest, longer, i) {
      assert longer[..i] == records[..i];
      if i < |records| {
        assert LinkedAt(digest, records, i);
      } else {
        assert records[..i] == records;
      }
    }
  }

  lemma TipIsDigest(digest: EventDigest, records: seq<AuditRecord>)
    requires IsChain(digest, records)
    ensures IsDigestText(Tip(records)) && '|' !in Tip(records)
  {
    if records != [] {
      var last := |records| - 1;
      assert LinkedAt(digest, records, last);
    }
  }

  /** Each record names the tip it was appended to. */
  ghost predicate IsThreaded(records: seq<AuditRecord>) {
    forall i :: 0 <= i < |records| ==> ThreadedAt(records, i)
  }

  predicate ThreadedAt(records: seq<AuditRecord>, i: nat)
    requires i < |records|
  {
    records[i].previousHash == Tip(records[..i])
  }

  /** Event hashes identify the content of the records and never look like an empty chain. */
  ghost predicate Identifies(a: seq<AuditRecord>, b: seq<AuditRecord>) {
    && (forall r :: r in a || r in b ==> r.eventHash != GENESIS_HASH)
    && (forall r, s :: r in a && s in b && r.eventHash == s.eventHash ==> SameContent(r, s))
  }

  lemma {:induction false} ThreadBinding(a: seq<AuditRecord>, b: seq<AuditRecord>)
    requires IsThreaded(a) && IsThreaded(b) && Identifies(a, b)
    requires Tip(a) == Tip(b)
    ensures |a| == |b|
    ensures forall i :: 0 <= i < |a| ==> SameContent(a[i], b[i])
    decreases |a|
  {
    if a != [] && b != [] {
      var m, n := |a| - 1, |b| - 1;
      var a', b' := a[..m], b[..n];
      assert ThreadedAt(a, m) && ThreadedAt(b, n);
      assert a[m] in a && b[n] in b;
      ThreadPrefix(a, m);
      ThreadPrefix(b, n);
      ThreadBinding(a', b');
      forall i | 0 <= i < |a| ensures SameContent(a[i], b[i]) {
        if i < m {
          assert SameContent(a'[i], b'[i]);
        }
      }
    }
  }

  lemma ThreadPrefix(records: seq<AuditRecord>, n: nat)
    requires n <= |records| && IsThreaded(records)
    ensures IsThreaded(records[..n])
  {
    forall i | 0 <= i < n ensures ThreadedAt(records[..n], i) {
      assert records[..n][..i] == records[..i];
      assert ThreadedAt(records, i);
    }
  }

  /** The texts hashed while replaying the records. */
  ghost predicate Hashed(records: seq<AuditRecord>, material: string) {
    exists r :: r in records && material == Material(ContentOf(r), r.previousHash)
  }

  /** No digest met while replaying either sequence is the genesis value or stems from two materials. */
  ghost predicate Unbroken(hash: HashFunction, a: seq<AuditRecord>, b: seq<AuditRecord>) {
    && (forall x :: Hashed(a, x) || Hashed(b, x) ==> hash(x) != GENESIS_HASH)
    && (forall x, y :: Hashed(a, x) && Hashed(b, y) && hash(x) == hash(y) ==> x == y)
  }

  lemma ChainIsThreaded(digest: EventDigest, records: seq<AuditRecord>)
    requires IsChain(digest, records)
    ensures IsThreaded(records)
  {
    forall i | 0 <= i < |records| ensures ThreadedAt(records, i) {
      assert LinkedAt(digest, records, i);
    }
  }

  lemma MemberIsHashed(hash: HashFunction, records: seq<AuditRecord>, r: AuditRecord)
    requires IsChain(EventHash(hash), records) && r in records
    ensures '|' !in r.previousHash
    ensures Hashed(records, Material(ContentOf(r), r.previousHash))
    ensures r.eventHash == hash(Material(ContentOf(r), r.previousHash))
  {
    var i :| 0 <= i < |records| && records[i] == r;
    assert LinkedAt(EventHash(hash), records, i);
    ChainPrefix(EventHash(hash), records, i);
    TipIsDigest(EventHash(hash), records[..i]);
  }

  lemma UnbrokenIdentifies(hash: HashFunction, a: seq<AuditRecord>, b: seq<AuditRecord>)
    requires IsChain(EventHash(hash), a) && IsChain(EventHash(hash), b) && Unbroken(hash, a, b)
    ensures Identifies(a, b)
  {
    forall r | r in a || r in b ensures r.eventHash != GENESIS_HASH {
      MemberIsHashed(hash, if r in a then a else b, r);
    }
    forall r, s | r in a && s in b && r.eventHash == s.eventHash ensures SameContent(r, s) {
      MemberIsHashed(hash, a, r);
      MemberIsHashed(hash, b, s);
      MaterialInjective(ContentOf(r), r.previousHash, ContentOf(s), s.previousHash);
    }
  }

  /** The tip of an accepted chain commits to the number, order and content of all its records. */
  lemma ChainBinding(hash: HashFunction, a: seq<AuditRecord>, b: seq<AuditRecord>)
    requires IsChain(EventHash(hash), a) && IsChain(EventHash(hash), b)
    requires Tip(a) == Tip(b)
    requires Unbroken(hash, a, b)
    ensures |a| == |b|
    ensures forall i :: 0 <= i < |a| ==> SameContent(a[i], b[i])
  {
    ChainIsThreaded(EventHash(hash), a);
    ChainIsThreaded(EventHash(hash), b);
    UnbrokenIdentifies(hash, a, b);
    ThreadBinding(a, b);
  }

  lemma ThreadCut(records: seq<AuditRecord>, from: nat, to: nat)
    requires from < to < |records|
    requires IsThreaded(records) && Identifies(records, records)
    ensures !IsThreaded(records[..from] + records[to..])
  {
    var cut := records[..from] + records[to..];
    if IsThreaded(cut) {
      assert Identifies(cut, records);
      ThreadBinding(cut, records);
      assert false;
    }
  }

  /**
   Cutting records out of an accepted chain is accepted exactly when what is cut
   is empty or reaches the end: a shortened tail leaves an accepted chain.
   */
  lemma CutIsDetected(hash: HashFunction, records: seq<AuditRecord>, from: nat, to: nat)
    requires from <= to <= |records|
    requires IsChain(EventHash(hash), records) && Unbroken(hash, records, records)
    ensures IsChain(EventHash(hash), records[..from] + records[to..]) <==> from == to || to == |records|
  {
    var digest := EventHash(hash);
    var cut := records[..from] + records[to..];
    if from == to {
      assert cut == records;
    } else if to == |records| {
      assert cut == records[..from];
      ChainPrefix(digest, records, from);
    } else {
      ChainIsThreaded(digest, records);
      UnbrokenIdentifies(hash, records, records);
      ThreadCut(records, from, to);
      if IsChain(digest, cut) {
        ChainIsThreaded(digest, cut);
      }
    }
  }
}
