/**
 The signature chain and its verifier. The signature function is abstract; what is assumed of it is
 stated on the finitely many messages at hand: no two of them collide and none is signed with "".
 */
module AuditChain {
  import opened AuditRecords

  datatype Reason = PrevSigMismatch | SignatureMismatch

  datatype VerifyResult = Intact(count: nat) | Tampered(index: nat, reason: Reason)

  /** The `prev_sig` record `i` must carry. */
  function Link(rs: seq<AuditRecord>, i: nat): string
    requires i <= |rs|
  {
    if i == 0 then "" else rs[i - 1].sig
  }

  function LastSig(rs: seq<AuditRecord>): string { Link(rs, |rs|) }

  ghost predicate LinkedAt(s: Scheme, rs: seq<AuditRecord>, i: nat)
    requires i < |rs|
  {
    rs[i].prevSig == Link(rs, i) && rs[i].sig == s.Sign(rs[i])
  }

  ghost predicate IsChain(s: Scheme, rs: seq<AuditRecord>)
  {
    forall i :: 0 <= i < |rs| ==> LinkedAt(s, rs, i)
  }

  /** The verifier's answer on the records from `i` on. */
  function VerifyFrom(s: Scheme, rs: seq<AuditRecord>, i: nat): VerifyResult
    requires i <= |rs|
    decreases |rs| - i
  {
    if i == |rs| then Intact(|rs|)
    else if rs[i].prevSig != Link(rs, i) then Tampered(i, PrevSigMismatch)
    else if s.Sign(rs[i]) != rs[i].sig then Tampered(i, SignatureMismatch)
    else VerifyFrom(s, rs, i + 1)
  }

  function Verify(s: Scheme, rs: seq<AuditRecord>): VerifyResult { VerifyFrom(s, rs, 0) }

  /** The loop of the verifier, with its running signature. */
  method VerifyRecords(s: Scheme, rs: seq<AuditRecord>) returns (v: VerifyResult)
    ensures v == Verify(s, rs)
    ensures v.Intact? <==> IsChain(s, rs)
    ensures v.Intact? ==> v.count == |rs|
    ensures v.Tampered? ==>
              v.index < |rs| && !LinkedAt(s, rs, v.index) && (forall j: nat :: j < v.index ==> LinkedAt(s, rs, j)) &&
              (v.reason.PrevSigMismatch? <==> rs[v.index].prevSig != Link(rs, v.index))
  {
    var prevSig := "";
    var i := 0;
    while i < |rs|
      invariant 0 <= i <= |rs|
      invariant prevSig == Link(rs, i)
      invariant forall j :: 0 <= j < i ==> LinkedAt(s, rs, j)
      invariant Verify(s, rs) == VerifyFrom(s, rs, i)
    {
      LinkChecks(s, rs, i);
      if rs[i].prevSig != prevSig { return Tampered(i, PrevSigMismatch); }
      if s.Sign(rs[i]) != rs[i].sig { return Tampered(i, SignatureMismatch); }
      prevSig := rs[i].sig;
      i := i + 1;
    }
    v := Intact(|rs|);
  }

  /** The verifier's two tests at record `i`. */
  lemma LinkChecks(s: Scheme, rs: seq<AuditRecord>, i: nat)
    requires i < |rs|
    ensures LinkedAt(s, rs, i) <==> rs[i].prevSig == Link(rs, i) && s.Sign(rs[i]) == rs[i].sig
  {
  }

  lemma {:induction false} IntactMeans(s: Scheme, rs: seq<AuditRecord>, i: nat)
    requires i <= |rs| && VerifyFrom(s, rs, i).Intact?
    ensures VerifyFrom(s, rs, i).count == |rs| && forall j :: i <= j < |rs| ==> LinkedAt(s, rs, j)
    decreases |rs| - i
  {
    if i < |rs| {
      LinkChecks(s, rs, i);
      IntactMeans(s, rs, i + 1);
    }
  }

  lemma {:induction false} TamperedMeans(s: Scheme, rs: seq<AuditRecord>, i: nat)
    requires i <= |rs| && VerifyFrom(s, rs, i).Tampered?
    ensures var k := VerifyFrom(s, rs, i).index;
            i <= k < |rs| && !LinkedAt(s, rs, k) && forall j :: i <= j < k ==> LinkedAt(s, rs, j)
    decreases |rs| - i
  {
    LinkChecks(s, rs, i);
    if LinkedAt(s, rs, i) { TamperedMeans(s, rs, i + 1); }
  }

  lemma VerifyFromMeaning(s: Scheme, rs: seq<AuditRecord>, i: nat)
    requires i <= |rs|
    ensures var v := VerifyFrom(s, rs, i);
            (v.Intact? ==> v.count == |rs| && forall j :: i <= j < |rs| ==> LinkedAt(s, rs, j)) &&
            (v.Tampered? ==> i <= v.index < |rs| && !LinkedAt(s, rs, v.index)
                             && forall j :: i <= j < v.index ==> LinkedAt(s, rs, j))
  {
    if VerifyFrom(s, rs, i).Intact? { IntactMeans(s, rs, i); } else { TamperedMeans(s, rs, i); }
  }

  lemma PrefixLinked(s: Scheme, rs: seq<AuditRecord>, n: nat, i: nat)
    requires i < n <= |rs|
    ensures LinkedAt(s, rs[..n], i) <==> LinkedAt(s, rs, i)
  {
  }

  lemma PrefixIsChain(s: Scheme, rs: seq<AuditRecord>, n: nat)
    requires n <= |rs|
    ensures IsChain(s, rs[..n]) <==> forall j: nat :: j < n ==> LinkedAt(s, rs, j)
  {
    forall j: nat | j < n ensures LinkedAt(s, rs[..n], j) <==> LinkedAt(s, rs, j) {
      PrefixLinked(s, rs, n, j);
    }
  }

  lemma AcceptedIsChain(s: Scheme, rs: seq<AuditRecord>)
    ensures Verify(s, rs).Intact? <==> IsChain(s, rs)
    ensures Verify(s, rs).Intact? ==> Verify(s, rs).count == |rs|
  {
    VerifyFromMeaning(s, rs, 0);
  }

  /** The first record that does not link. */
  ghost predicate FirstBreak(s: Scheme, rs: seq<AuditRecord>, i: nat)
  {
    i < |rs| && !LinkedAt(s, rs, i) && forall j: nat :: j < i ==> LinkedAt(s, rs, j)
  }

  lemma ReportedIsFirstBreak(s: Scheme, rs: seq<AuditRecord>, i: nat)
    ensures (Verify(s, rs).Tampered? && Verify(s, rs).index == i) <==> FirstBreak(s, rs, i)
  {
    VerifyFromMeaning(s, rs, 0);
  }

  /** MAIN: acceptance means the whole list is a chain; a reported index is the least that breaks it. */
  lemma VerifyMeaning(s: Scheme, rs: seq<AuditRecord>, i: nat)
    ensures Verify(s, rs) == Intact(|rs|) <==> IsChain(s, rs)
    ensures (Verify(s, rs).Tampered? && Verify(s, rs).index == i)
       <==> (i < |rs| && IsChain(s, rs[..i]) && !IsChain(s, rs[..i + 1]))
  {
    AcceptedIsChain(s, rs);
    ReportedIsFirstBreak(s, rs, i);
    FirstBreakByPrefix(s, rs, i);
  }

  lemma FirstBreakByPrefix(s: Scheme, rs: seq<AuditRecord>, i: nat)
    ensures FirstBreak(s, rs, i) <==> i < |rs| && IsChain(s, rs[..i]) && !IsChain(s, rs[..i + 1])
  {
    if i < |rs| {
      PrefixIsChain(s, rs, i);
      PrefixIsChain(s, rs, i + 1);
    }
  }

  lemma ReportedIndex(s: Scheme, rs: seq<AuditRecord>, i: nat)
    requires i < |rs| && !LinkedAt(s, rs, i)
    requires forall j: nat :: j < i ==> LinkedAt(s, rs, j)
    ensures Verify(s, rs).Tampered? && Verify(s, rs).index == i
  {
    VerifyFromMeaning(s, rs, 0);
  }

  // ---------------------------------------------- hypotheses on signatures

  ghost function Messages(s: Scheme, rs: seq<AuditRecord>): set<string>
  {
    set r | r in rs :: s.Message(r)
  }

  /** No two of these messages share a signature, and none is signed with the empty string. */
  ghost predicate Sound(s: Scheme, messages: set<string>)
  {
    (forall m, n :: m in messages && n in messages && s.sign(s.key, m) == s.sign(s.key, n) ==> m == n) &&
    (forall m :: m in messages ==> s.sign(s.key, m) != "")
  }

  lemma MessageOf(s: Scheme, rs: seq<AuditRecord>, i: nat)
    requires i < |rs|
    ensures s.Message(rs[i]) in Messages(s, rs)
  {
    assert rs[i] in rs;
  }

  /** Records signed alike carry the same message, hence the same link. */
  lemma SignedAlike(s: Scheme, ms: set<string>, r: AuditRecord, q: AuditRecord)
    requires Sound(s, ms) && s.Message(r) in ms && s.Message(q) in ms && s.Sign(r) == s.Sign(q)
    ensures s.Message(r) == s.Message(q) && r.prevSig == q.prevSig
  {
    MessageDecides(s, r, q);
  }

  /** MAIN: the signatures along a chain are pairwise distinct and never empty. */
  lemma {:induction false} SignaturesDistinct(s: Scheme, rs: seq<AuditRecord>, i: nat, j: nat)
    requires IsChain(s, rs) && Sound(s, Messages(s, rs))
    requires i < j < |rs|
    ensures rs[i].sig != rs[j].sig && rs[i].sig != ""
    decreases i
  {
    SignatureNonEmpty(s, rs, i);
    if rs[i].sig == rs[j].sig {
      assert LinkedAt(s, rs, i) && LinkedAt(s, rs, j);
      MessageOf(s, rs, i);
      MessageOf(s, rs, j);
      SignedAlike(s, Messages(s, rs), rs[i], rs[j]);
      if i > 0 { SignaturesDistinct(s, rs, i - 1, j - 1); }
      SignatureNonEmpty(s, rs, j - 1);
    }
  }

  lemma SignatureNonEmpty(s: Scheme, rs: seq<AuditRecord>, i: nat)
    requires IsChain(s, rs) && Sound(s, Messages(s, rs)) && i < |rs|
    ensures rs[i].sig != ""
  {
    assert LinkedAt(s, rs, i);
    MessageOf(s, rs, i);
  }

  /** The links of a chain tell the positions apart. */
  lemma LinksDistinct(s: Scheme, rs: seq<AuditRecord>, i: nat, j: nat)
    requires IsChain(s, rs) && Sound(s, Messages(s, rs))
    requires i <= |rs| && j <= |rs| && Link(rs, i) == Link(rs, j)
    ensures i == j
  {
    if i > 0 { SignatureNonEmpty(s, rs, i - 1); }
    if j > 0 { SignatureNonEmpty(s, rs, j - 1); }
    if 0 < i < j { SignaturesDistinct(s, rs, i - 1, j - 1); }
    if 0 < j < i { SignaturesDistinct(s, rs, j - 1, i - 1); }
  }

  // ------------------------------------------------------- rearrangements

  /**
   MAIN: a list made only of records of an accepted ledger, by dropping, duplicating or reordering
   them, is accepted exactly when it is a prefix of that ledger.
   */
  lemma RearrangementAccepted(s: Scheme, rs: seq<AuditRecord>, qs: seq<AuditRecord>)
    requires Verify(s, rs).Intact? && Sound(s, Messages(s, rs))
    requires forall q :: q in qs ==> q in rs
    ensures Verify(s, qs).Intact? <==> qs <= rs
  {
    AcceptedIsChain(s, rs);
    AcceptedIsChain(s, qs);
    if IsChain(s, qs) {
      RearrangedIsPrefix(s, rs, qs, |qs|);
    }
    if qs <= rs {
      PrefixIsChain(s, rs, |qs|);
      assert qs == rs[..|qs|];
    }
  }

  lemma {:induction false} RearrangedIsPrefix(s: Scheme, rs: seq<AuditRecord>, qs: seq<AuditRecord>, n: nat)
    requires IsChain(s, rs) && Sound(s, Messages(s, rs)) && IsChain(s, qs)
    requires forall q :: q in qs ==> q in rs
    requires n <= |qs|
    ensures n <= |rs| && qs[..n] == rs[..n]
  {
    if n > 0 {
      RearrangedIsPrefix(s, rs, qs, n - 1);
      assert qs[n - 1] in qs;
      var k :| 0 <= k < |rs| && rs[k] == qs[n - 1];
      assert LinkedAt(s, rs, k) && LinkedAt(s, qs, n - 1);
      assert n > 1 ==> qs[n - 2] == qs[..n - 1][n - 2] == rs[n - 2];
      assert Link(rs, k) == Link(rs, n - 1);
      LinksDistinct(s, rs, k, n - 1);
      assert qs[..n] == qs[..n - 1] + [qs[n - 1]] && rs[..n] == rs[..n - 1] + [rs[n - 1]];
    }
  }

  // --------------------------------------------------------------- tampering

  /**
   MAIN: rewriting record `i` but keeping its stored signature is accepted exactly when no signed
   field changed, and is otherwise reported at `i`.
   */
  lemma EditReported(s: Scheme, rs: seq<AuditRecord>, i: nat, r: AuditRecord)
    requires IsChain(s, rs) && i < |rs| && r.sig == rs[i].sig
    requires Sound(s, {s.Message(rs[i]), s.Message(r)})
    ensures var v := Verify(s, rs[i := r]);
            if SameSigned(s.port, r, rs[i]) then v == Intact(|rs|) else v.Tampered? && v.index == i
  {
    var qs := rs[i := r];
    EditedLink(s, rs, i, r);
    MessageDecides(s, r, rs[i]);
    forall j: nat | j < |rs| && j != i ensures LinkedAt(s, qs, j) { OtherLinks(s, rs, i, r, j); }
    if s.Message(r) == s.Message(rs[i]) {
      VerifyFromMeaning(s, qs, 0);
    } else {
      ReportedIndex(s, qs, i);
    }
  }

  lemma OtherLinks(s: Scheme, rs: seq<AuditRecord>, i: nat, r: AuditRecord, j: nat)
    requires IsChain(s, rs) && i < |rs| && r.sig == rs[i].sig && j < |rs| && j != i
    ensures LinkedAt(s, rs[i := r], j)
  {
    assert LinkedAt(s, rs, j) && Link(rs[i := r], j) == Link(rs, j);
  }

  lemma EditedLink(s: Scheme, rs: seq<AuditRecord>, i: nat, r: AuditRecord)
    requires IsChain(s, rs) && i < |rs| && r.sig == rs[i].sig
    requires Sound(s, {s.Message(rs[i]), s.Message(r)})
    ensures LinkedAt(s, rs[i := r], i) <==> s.Message(r) == s.Message(rs[i])
  {
    assert LinkedAt(s, rs, i) && Link(rs[i := r], i) == Link(rs, i);
    if s.Sign(r) == s.Sign(rs[i]) { SignedAlike(s, {s.Message(rs[i]), s.Message(r)}, r, rs[i]); }
    if s.Message(r) == s.Message(rs[i]) { MessageDecides(s, r, rs[i]); }
  }

  /** MAIN: deleting record `i` is reported at `i`, unless it was the last one: then it goes unnoticed. */
  lemma DeletionReported(s: Scheme, rs: seq<AuditRecord>, i: nat)
    requires IsChain(s, rs) && Sound(s, Messages(s, rs)) && i < |rs|
    ensures var v := Verify(s, rs[..i] + rs[i + 1..]);
            if i + 1 < |rs| then v == Tampered(i, PrevSigMismatch) else v == Intact(|rs| - 1)
  {
    var qs := rs[..i] + rs[i + 1..];
    forall j: nat | j < i ensures LinkedAt(s, qs, j) { assert LinkedAt(s, rs, j); }
    VerifyFromMeaning(s, qs, 0);
    if i + 1 < |rs| {
      assert LinkedAt(s, rs, i + 1) && qs[i] == rs[i + 1] && Link(qs, i) == Link(rs, i);
      if Link(rs, i) == Link(rs, i + 1) { LinksDistinct(s, rs, i, i + 1); }
      VerifyFromReason(s, qs, 0, i);
    }
  }

  lemma {:induction false} VerifyFromReason(s: Scheme, rs: seq<AuditRecord>, from: nat, i: nat)
    requires from <= i < |rs| && !LinkedAt(s, rs, i)
    requires forall j :: from <= j < i ==> LinkedAt(s, rs, j)
    ensures VerifyFrom(s, rs, from) ==
            Tampered(i, if rs[i].prevSig != Link(rs, i) then PrevSigMismatch else SignatureMismatch)
    decreases i - from
  {
    if from < i {
      assert LinkedAt(s, rs, from);
      VerifyFromReason(s, rs, from + 1, i);
    }
  }

  // ----------------------------------------------- what the last signature pins

  /**
   MAIN: two non-empty ledgers accepted under one key with the same last signature have the same
   length and agree on every signed field of every record.
   */
  lemma {:induction false} LastSignaturePins(s: Scheme, rs: seq<AuditRecord>, qs: seq<AuditRecord>)
    requires Verify(s, rs).Intact? && Verify(s, qs).Intact? && rs != [] && qs != []
    requires Sound(s, Messages(s, rs) + Messages(s, qs))
    requires LastSig(rs) == LastSig(qs)
    ensures |rs| == |qs|
    ensures forall i :: 0 <= i < |rs| ==> SameSigned(s.port, rs[i], qs[i]) && rs[i].sig == qs[i].sig
  {
    AcceptedIsChain(s, rs);
    AcceptedIsChain(s, qs);
    SoundSubset(s, Messages(s, rs), Messages(s, rs) + Messages(s, qs));
    SoundSubset(s, Messages(s, qs), Messages(s, rs) + Messages(s, qs));
    BackwardAgree(s, rs, qs, |rs|, |qs|);
    forall i: nat | i < |rs| ensures SameSigned(s.port, rs[i], qs[i]) && rs[i].sig == qs[i].sig {
      assert SignedSame(rs, qs, i);
      StepBack(s, rs, qs, i, i);
      MessageDecides(s, rs[i], qs[i]);
    }
  }

  lemma SoundSubset(s: Scheme, a: set<string>, b: set<string>)
    requires a <= b && Sound(s, b)
    ensures Sound(s, a)
  {
  }

  ghost predicate SignedSame(rs: seq<AuditRecord>, qs: seq<AuditRecord>, i: nat)
  {
    i < |rs| && i < |qs| && rs[i].sig == qs[i].sig
  }

  /** Only the first record links to the empty signature. */
  lemma EmptyLink(s: Scheme, rs: seq<AuditRecord>, m: nat)
    requires IsChain(s, rs) && Sound(s, Messages(s, rs)) && m <= |rs|
    ensures Link(rs, m) == "" <==> m == 0
  {
    if m > 0 { SignatureNonEmpty(s, rs, m - 1); }
  }

  /** Backward induction from equal signatures to the first record. */
  lemma {:induction false} BackwardAgree(s: Scheme, rs: seq<AuditRecord>, qs: seq<AuditRecord>, m: nat, n: nat)
    requires IsChain(s, rs) && IsChain(s, qs) && Sound(s, Messages(s, rs) + Messages(s, qs))
    requires Sound(s, Messages(s, rs)) && Sound(s, Messages(s, qs))
    requires m <= |rs| && n <= |qs| && Link(rs, m) == Link(qs, n)
    ensures m == n
    ensures forall i: nat :: i < m ==> SignedSame(rs, qs, i)
    decreases m
  {
    EmptyLink(s, rs, m);
    EmptyLink(s, qs, n);
    if m > 0 {
      LinksBack(s, rs, qs, m - 1, n - 1);
      BackwardAgree(s, rs, qs, m - 1, n - 1);
    }
  }

  lemma LinksBack(s: Scheme, rs: seq<AuditRecord>, qs: seq<AuditRecord>, i: nat, j: nat)
    requires IsChain(s, rs) && IsChain(s, qs) && Sound(s, Messages(s, rs) + Messages(s, qs))
    requires i < |rs| && j < |qs| && rs[i].sig == qs[j].sig
    ensures Link(rs, i) == Link(qs, j)
  {
    StepBack(s, rs, qs, i, j);
  }

  /** Equal signatures at `i` and `j` carry equal messages, hence equal links. */
  lemma StepBack(s: Scheme, rs: seq<AuditRecord>, qs: seq<AuditRecord>, i: nat, j: nat)
    requires IsChain(s, rs) && IsChain(s, qs) && Sound(s, Messages(s, rs) + Messages(s, qs))
    requires i < |rs| && j < |qs| && rs[i].sig == qs[j].sig
    ensures s.Message(rs[i]) == s.Message(qs[j]) && Link(rs, i) == Link(qs, j)
  {
    assert LinkedAt(s, rs, i) && LinkedAt(s, qs, j);
    MessageOf(s, rs, i);
    MessageOf(s, qs, j);
    SignedAlike(s, Messages(s, rs) + Messages(s, qs), rs[i], qs[j]);
  }
}
