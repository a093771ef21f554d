/**
 CanonicalStateHasher: a chained hash over the events processed so far.

 SHA-256 is a parameter `sha`. TraceDetermined says what the chain is for: if `sha` loses no
 information and prints no colon, equal hashes after equally many events mean that the two
 runs processed the same times, types and (up to key order) payloads.
 */
module StateHash {
  import opened Utf16
  import opened Canonical

  datatype Entry = Entry(timeUs: int, eventType: Text, payload: Json)

  type Digest = Text -> Text

  /** The initial hash: sixty-four zeros. */
  const SEED: Text := Zeros(64)

  function Zeros(n: nat): Text {
    if n == 0 then [] else [ZERO] + Zeros(n - 1)
  }

  lemma {:induction false} ZerosFree(n: nat)
    ensures Free(Zeros(n), COLON)
  {
    if n > 0 { ZerosFree(n - 1); }
  }

  lemma {:induction false} ZerosMean(n: nat)
    ensures |Zeros(n)| == n && forall i :: 0 <= i < n ==> Zeros(n)[i] == 48
  {
    if n > 0 { ZerosMean(n - 1); }
  }

  lemma {:induction false} SeedMeans()
    ensures |SEED| == 64 && forall i :: 0 <= i < 64 ==> SEED[i] == 48
  {
    ZerosMean(64);
  }

  /** The text hashed for one event. */
  function HashInput(hash: Text, e: Entry): Text {
    hash + [COLON] + (Decimal(e.timeUs) + [COLON] + (e.eventType + [COLON] + Canonicalize(e.payload)))
  }

  function Chain(sha: Digest, seed: Text, trace: seq<Entry>): Text {
    if trace == [] then seed
    else sha(HashInput(Chain(sha, seed, trace[..|trace| - 1]), trace[|trace| - 1]))
  }

  class CanonicalStateHasher {
    const sha: Digest
    var currentHash: Text

    constructor (sha: Digest, initialSeed: Text := SEED)
      ensures this.sha == sha && currentHash == initialSeed
    {
      this.sha := sha;
      currentHash := initialSeed;
    }

    method GetHash() returns (hash: Text)
      ensures hash == currentHash
    {
      hash := currentHash;
    }

    /** Appends one event to the chain, whatever seed and trace led here. */
    method Update(timeUs: int, eventType: Text, payload: Json)
      modifies this
      ensures currentHash == sha(HashInput(old(currentHash), Entry(timeUs, eventType, payload)))
      ensures forall seed, trace {:trigger Chain(sha, seed, trace)} ::
                old(currentHash) == Chain(sha, seed, trace) ==>
                currentHash == Chain(sha, seed, trace + [Entry(timeUs, eventType, payload)])
    {
      var canonicalPayload := Canonicalize(payload);
      var data := currentHash + [COLON] + (Decimal(timeUs) + [COLON] + (eventType + [COLON] + canonicalPayload));
      currentHash := sha(data);
      forall seed, trace | old(currentHash) == Chain(sha, seed, trace)
        ensures currentHash == Chain(sha, seed, trace + [Entry(timeUs, eventType, payload)])
      {
        var longer := trace + [Entry(timeUs, eventType, payload)];
        assert longer[..|longer| - 1] == trace;
      }
    }

    method Restore(hash: Text)
      modifies this
      ensures currentHash == hash
    {
      currentHash := hash;
    }
  }

  // ---------- what equal hashes mean ----------

  /** The digest loses nothing and prints hexadecimal, which has no colon. */
  ghost predicate Lossless(sha: Digest) {
    && (forall a, b :: sha(a) == sha(b) ==> a == b)
    && (forall a :: Free(sha(a), COLON))
  }

  ghost predicate Hashable(e: Entry) {
    Free(e.eventType, COLON) && WellFormed(e.payload)
  }

  /** The same event, up to the key order of its payload. */
  ghost predicate SameEntry(a: Entry, b: Entry) {
    a.timeUs == b.timeUs && a.eventType == b.eventType && Equivalent(a.payload, b.payload)
  }

  /** One step: the hashed text determines the hash before it and the event. */
  lemma {:induction false} HashInputDetermines(h: Text, g: Text, a: Entry, b: Entry)
    requires Free(h, COLON) && Free(g, COLON) && Hashable(a) && Hashable(b)
    ensures HashInput(h, a) == HashInput(g, b) <==> h == g && SameEntry(a, b)
  {
    CanonicalIffEquivalent(a.payload, b.payload);
    if HashInput(h, a) == HashInput(g, b) {
      var x, y := a.eventType + [COLON] + Canonicalize(a.payload), b.eventType + [COLON] + Canonicalize(b.payload);
      SplitAtMark(h, g, COLON, Decimal(a.timeUs) + [COLON] + x, Decimal(b.timeUs) + [COLON] + y);
      DecimalUnits(a.timeUs);
      DecimalUnits(b.timeUs);
      SplitAtMark(Decimal(a.timeUs), Decimal(b.timeUs), COLON, x, y);
      DecimalSplit(a.timeUs, b.timeUs, [], []);
      SplitAtMark(a.eventType, b.eventType, COLON, Canonicalize(a.payload), Canonicalize(b.payload));
    }
  }

  lemma {:induction false} ChainFree(sha: Digest, seed: Text, trace: seq<Entry>)
    requires Lossless(sha) && Free(seed, COLON)
    ensures Free(Chain(sha, seed, trace), COLON)
  {
  }

  ghost predicate SameTrace(s: seq<Entry>, t: seq<Entry>) {
    |s| == |t| && forall i :: 0 <= i < |s| ==> SameEntry(s[i], t[i])
  }

  ghost predicate HashableTrace(t: seq<Entry>) {
    forall i :: 0 <= i < |t| ==> Hashable(t[i])
  }

  lemma {:induction false} ChainStep(sha: Digest, h: Text, g: Text, a: Entry, b: Entry)
    requires Lossless(sha) && Free(h, COLON) && Free(g, COLON) && Hashable(a) && Hashable(b)
    ensures sha(HashInput(h, a)) == sha(HashInput(g, b)) <==> h == g && SameEntry(a, b)
  {
    HashInputDetermines(h, g, a, b);
  }

  lemma {:induction false} SameTraceSnoc(s: seq<Entry>, t: seq<Entry>)
    requires |s| == |t| > 0
    ensures SameTrace(s, t) <==>
            SameTrace(s[..|s| - 1], t[..|t| - 1]) && SameEntry(s[|s| - 1], t[|t| - 1])
  {
    var n := |s| - 1;
    if SameTrace(s[..n], t[..n]) && SameEntry(s[n], t[n]) {
      forall i | 0 <= i < |s| ensures SameEntry(s[i], t[i]) {
        if i < n { assert s[i] == s[..n][i] && t[i] == t[..n][i]; }
      }
    }
  }

  /** Equal hashes after equally many events: same seed and same events, and conversely. */
  lemma {:induction false} TraceDetermined(sha: Digest, seed: Text, seed': Text, s: seq<Entry>, t: seq<Entry>)
    requires Lossless(sha) && Free(seed, COLON) && Free(seed', COLON)
    requires |s| == |t| && HashableTrace(s) && HashableTrace(t)
    ensures Chain(sha, seed, s) == Chain(sha, seed', t) <==> seed == seed' && SameTrace(s, t)
  {
    if s != [] {
      var n := |s| - 1;
      TraceDetermined(sha, seed, seed', s[..n], t[..n]);
      ChainFree(sha, seed, s[..n]);
      ChainFree(sha, seed', t[..n]);
      ChainStep(sha, Chain(sha, seed, s[..n]), Chain(sha, seed', t[..n]), s[n], t[n]);
      SameTraceSnoc(s, t);
    }
  }
}
