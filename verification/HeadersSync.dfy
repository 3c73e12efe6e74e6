/** The two-phase download of a peer's headers: commitments in the first phase, checks in the second. */
module HeadersSyncs {
  import opened Collections

  datatype Header = Header(version: int, prev: nat, merkleRoot: nat, time: nat, bits: nat, nonce: nat)

  /** A header without the hash of the one before it. */
  datatype Compressed = Compressed(version: int, merkleRoot: nat, time: nat, bits: nat, nonce: nat) {
    function Full(prev: nat): Header { Header(version, prev, merkleRoot, time, bits, nonce) }
  }

  function Compress(h: Header): Compressed {
    Compressed(h.version, h.merkleRoot, h.time, h.bits, h.nonce)
  }

  const WORK_RANGE: nat := 0x1_0000_0000_0000_0000_0000_0000_0000_0000_0000_0000_0000_0000_0000_0000_0000_0000

  /** What is fixed for a sync: hashing, the salted bit of a hash, work and difficulty rules, the parameters, and where it starts. */
  datatype Setting = Setting(
    hash: Header -> nat, bit: nat -> bool, proof: nat -> nat, permitted: (int, nat, nat) -> bool,
    period: nat, offset: nat, bufferSize: nat, maxCommitments: nat,
    start: Header, startHeight: nat, startWork: nat, minWork: nat)
  {
    ghost predicate Ok() { period > 0 && offset < period }

    /** The header before the `i`-th after the start. */
    ghost function Prior(hs: seq<Header>, i: nat): Header
      requires i <= |hs|
    {
      if i == 0 then start else hs[i - 1]
    }

    ghost function Last(hs: seq<Header>): Header { Prior(hs, |hs|) }

    /** Each header names the hash of the one before it. */
    ghost predicate Linked(hs: seq<Header>) {
      forall i :: 0 <= i < |hs| ==> LinkedAt(hs, i)
    }

    ghost predicate LinkedAt(hs: seq<Header>, i: nat)
      requires i < |hs|
    {
      hs[i].prev == hash(Prior(hs, i))
    }

    /** Each difficulty is permitted after the one before it. */
    ghost predicate Permitted(hs: seq<Header>) {
      forall i :: 0 <= i < |hs| ==> PermittedAt(hs, i)
    }

    ghost predicate PermittedAt(hs: seq<Header>, i: nat)
      requires i < |hs|
    {
      permitted(startHeight + 1 + i, Prior(hs, i).bits, hs[i].bits)
    }

    /** The work up to the end of some headers, in 256 bits. */
    ghost function Work(hs: seq<Header>): nat {
      if hs == [] then startWork else (Work(hs[..|hs| - 1]) + proof(hs[|hs| - 1].bits)) % WORK_RANGE
    }

    /** At some point the work was enough. */
    ghost predicate Enough(hs: seq<Header>) {
      exists n :: 0 < n <= |hs| && Work(hs[..n]) >= minWork
    }

    predicate IsCommitted(i: nat)
      requires period > 0
    {
      (startHeight + 1 + i) % period == offset
    }

    function BitOf(h: Header): bool { bit(hash(h)) }

    /** The commitments to the headers from the `from`-th on. */
    ghost function Commitments(hs: seq<Header>, from: nat): seq<bool>
      requires period > 0
      decreases |hs| - from
    {
      if from >= |hs| then []
      else (if IsCommitted(from) then [BitOf(hs[from])] else []) + Commitments(hs, from + 1)
    }

    /** Whether the first phase takes a header after some others. */
    ghost predicate TakesFirst(hs: seq<Header>, h: Header)
      requires period > 0
    {
      && permitted(startHeight + 1 + |hs|, Last(hs).bits, h.bits)
      && (IsCommitted(|hs|) ==> |Commitments(hs, 0)| < maxCommitments)
    }

    ghost predicate TakesAllFirst(hs: seq<Header>, headers: seq<Header>)
      requires period > 0
    {
      forall k :: 0 <= k < |headers| ==> TakesFirst(hs + headers[..k], headers[k])
    }

    /** Whether the second phase takes a header after some others: it is linked, permitted, and has the bit of the
        header that the first phase had at its height, unless that is not a height for it or there is enough work. */
    ghost predicate TakesAgain(presync: seq<Header>, hs: seq<Header>, h: Header)
      requires period > 0
    {
      && h.prev == hash(Last(hs)) && permitted(startHeight + 1 + |hs|, Last(hs).bits, h.bits)
      && (Enough(hs + [h]) || !IsCommitted(|hs|) || (|hs| < |presync| && BitOf(presync[|hs|]) == BitOf(h)))
    }

    ghost predicate TakesAllAgain(presync: seq<Header>, hs: seq<Header>, headers: seq<Header>)
      requires period > 0
    {
      forall k :: 0 <= k < |headers| ==> TakesAgain(presync, hs + headers[..k], headers[k])
    }

    lemma {:induction false} CommitmentsAppend(hs: seq<Header>, h: Header, from: nat)
      requires period > 0 && from <= |hs|
      ensures Commitments(hs + [h], from) == Commitments(hs, from) + if IsCommitted(|hs|) then [BitOf(h)] else []
      decreases |hs| - from
    {
      if from < |hs| {
        CommitmentsAppend(hs, h, from + 1);
      } else {
        assert Commitments(hs + [h], from + 1) == [];
      }
    }

    lemma LinkedAppend(hs: seq<Header>, h: Header)
      requires Linked(hs) && h.prev == hash(Last(hs))
      ensures Linked(hs + [h])
    {
      forall i | 0 <= i < |hs + [h]| ensures LinkedAt(hs + [h], i) {
        assert i < |hs| ==> LinkedAt(hs, i);
      }
    }

    lemma PermittedAppend(hs: seq<Header>, h: Header)
      requires Permitted(hs) && permitted(startHeight + 1 + |hs|, Last(hs).bits, h.bits)
      ensures Permitted(hs + [h])
    {
      forall i | 0 <= i < |hs + [h]| ensures PermittedAt(hs + [h], i) {
        assert i < |hs| ==> PermittedAt(hs, i);
      }
    }

    lemma WorkAppend(hs: seq<Header>, h: Header)
      ensures Work(hs + [h]) == (Work(hs) + proof(h.bits)) % WORK_RANGE
      ensures Enough(hs + [h]) <==> Enough(hs) || Work(hs + [h]) >= minWork
    {
      var next := hs + [h];
      assert next[..|hs|] == hs && next[..|next|] == next;
      assert forall n :: 0 < n <= |hs| ==> next[..n] == hs[..n];
      if Enough(hs) {
        var n :| 0 < n <= |hs| && Work(hs[..n]) >= minWork;
        assert Work(next[..n]) >= minWork;
      }
      if Work(next) >= minWork {
        assert Work(next[..|next|]) >= minWork;
      }
    }
  }

  datatype State = Presync | Redownload | Final

  datatype ProcessingResult = ProcessingResult(headers: seq<Header>, success: bool, requestMore: bool)

  // ----- what holds in the second phase -----

  /** The buffer has, without their previous hashes, the accepted headers that were not released. */
  ghost predicate Buffered(accepted: seq<Header>, released: seq<Header>, buffer: seq<Compressed>) {
    && released <= accepted && |buffer| == |accepted| - |released|
    && forall i :: 0 <= i < |buffer| ==> buffer[i] == Compress(accepted[|released| + i])
  }

  /** A header whose commitment was due agrees with the header of the first phase at the same height. */
  ghost predicate MatchesAt(p: Setting, presync: seq<Header>, accepted: seq<Header>, i: nat)
    requires p.Ok() && i < |accepted|
  {
    p.IsCommitted(i) && !p.Enough(accepted[..i + 1]) ==> i < |presync| && p.BitOf(accepted[i]) == p.BitOf(presync[i])
  }

  ghost predicate Matches(p: Setting, presync: seq<Header>, accepted: seq<Header>)
    requires p.Ok()
  {
    forall i :: 0 <= i < |accepted| ==> MatchesAt(p, presync, accepted, i)
  }

  /** A released header has enough headers above it, or there was enough work. */
  ghost predicate Deep(p: Setting, accepted: seq<Header>, released: seq<Header>) {
    released != [] ==> |accepted| - |released| >= p.bufferSize || p.Enough(accepted)
  }

  /** The headers to release: all once there is enough work, and before that those with a full buffer above them. */
  ghost function Due(p: Setting, accepted: seq<Header>): seq<Header> {
    if p.Enough(accepted) then accepted else accepted[..Max(0, |accepted| - p.bufferSize)]
  }

  ghost predicate ChainOk(p: Setting, accepted: seq<Header>) {
    p.Linked(accepted) && (p.bufferSize > 0 ==> p.Permitted(accepted))
  }

  lemma MatchesAppend(p: Setting, presync: seq<Header>, accepted: seq<Header>, h: Header)
    requires p.Ok() && Matches(p, presync, accepted)
    requires p.IsCommitted(|accepted|) && !p.Enough(accepted + [h]) ==> |accepted| < |presync| && p.BitOf(h) == p.BitOf(presync[|accepted|])
    ensures Matches(p, presync, accepted + [h])
  {
    var next := accepted + [h];
    forall i | 0 <= i < |next| ensures MatchesAt(p, presync, next, i) {
      assert i < |accepted| ==> next[..i + 1] == accepted[..i + 1] && MatchesAt(p, presync, accepted, i);
      assert i == |accepted| ==> next[..i + 1] == next;
    }
  }

  /** What holds of all headers of the two phases and of those released, whenever the sync ends. */
  ghost predicate HistoryOk(p: Setting, presync: seq<Header>, accepted: seq<Header>, released: seq<Header>) {
    && p.Ok() && p.Permitted(presync) && ChainOk(p, accepted) && released <= accepted
    && Matches(p, presync, accepted) && Deep(p, accepted, released)
  }

  class HeadersSync {
    const p: Setting
    var state: State
    var commitments: seq<bool>
    var lastHeader: Header
    var currentHeight: int
    var currentWork: nat
    var buffer: seq<Compressed>
    var lastHeight: int
    var lastHash: nat
    var firstPrevHash: nat
    var redownloadWork: nat
    /** There was enough work: release everything. */
    var processAll: bool

    /** The headers taken in the first phase, taken in the second phase, and released. */
    ghost var presync: seq<Header>
    ghost var accepted: seq<Header>
    ghost var released: seq<Header>

    ghost predicate PresyncOk()
      reads this
    {
      && p.Ok() && p.Permitted(presync)
      && lastHeader == p.Last(presync) && currentHeight == p.startHeight + |presync| && currentWork == p.Work(presync)
      && commitments == p.Commitments(presync, 0) && |commitments| <= p.maxCommitments
      && accepted == [] && released == [] && buffer == [] && !processAll
    }

    ghost predicate RedownloadOk()
      reads this
    {
      && p.Ok() && p.Permitted(presync) && p.Work(presync) >= p.minWork
      && ChainOk(p, accepted) && Buffered(accepted, released, buffer) && Deep(p, accepted, released)
      && lastHeight == p.startHeight + |accepted| && lastHash == p.hash(p.Last(accepted))
      && firstPrevHash == p.hash(p.Prior(accepted, |released|))
      && redownloadWork == p.Work(accepted) && (processAll <==> p.Enough(accepted))
      && Matches(p, presync, accepted) && |commitments| <= p.maxCommitments
      && (!processAll ==> commitments == p.Commitments(presync, |accepted|))
      && (accepted != [] && p.bufferSize > 0 && !processAll ==> buffer != [])
    }

    ghost predicate Valid()
      reads this
    {
      && HistoryOk(p, presync, accepted, released)
      && match state
         case Presync => PresyncOk()
         case Redownload => RedownloadOk() && |buffer| <= p.bufferSize && !processAll
         case Final => commitments == [] && buffer == []
    }

    constructor (p: Setting)
      requires p.Ok()
      ensures Valid() && state == Presync && presync == [] && this.p == p
    {
      this.p := p;
      state, commitments, lastHeader, currentHeight, currentWork := Presync, [], p.start, p.startHeight, p.startWork;
      buffer, lastHeight, lastHash, firstPrevHash, redownloadWork, processAll := [], 0, 0, 0, 0, false;
      presync, accepted, released := [], [], [];
    }

    /** Clear everything. */
    method Finalize()
      requires HistoryOk(p, presync, accepted, released)
      modifies this
      ensures Valid() && state == Final && presync == old(presync) && accepted == old(accepted) && released == old(released)
    {
      commitments, buffer, processAll, currentHeight := [], [], false, 0;
      lastHeader := Header(0, 0, 0, 0, 0, 0);
      lastHash, firstPrevHash := 0, 0;
      state := Final;
    }

    // ----- the first phase -----

    /** Check the difficulty of a header, and commit to it if it is at a height for it. */
    method ProcessSingleHeader(h: Header) returns (ok: bool)
      requires state == Presync && PresyncOk()
      modifies this
      ensures state == Presync && if ok then PresyncOk() && presync == old(presync) + [h] else presync == old(presync)
      ensures accepted == old(accepted) && released == old(released)
      ensures ok <==> p.TakesFirst(old(presync), h)
    {
      hide Setting.Work, Setting.Permitted, Setting.Commitments;
      var height := currentHeight + 1;
      if !p.permitted(height, lastHeader.bits, h.bits) {
        return false;
      }
      p.CommitmentsAppend(presync, h, 0);
      if height % p.period == p.offset {
        commitments := commitments + [p.BitOf(h)];
        if |commitments| > p.maxCommitments {
          return false;
        }
      }
      p.PermittedAppend(presync, h);
      p.WorkAppend(presync, h);
      currentWork := (currentWork + p.proof(h.bits)) % WORK_RANGE;
      lastHeader := h;
      currentHeight := height;
      presync := presync + [h];
      return true;
    }

    /** Process the headers of a message, up to one that is not taken. */
    method ProcessEach(headers: seq<Header>) returns (ok: bool)
      requires state == Presync && PresyncOk()
      modifies this
      ensures state == Presync && p.Ok() && p.Permitted(presync) && old(presync) <= presync
      ensures accepted == old(accepted) && released == old(released)
      ensures ok <==> p.TakesAllFirst(old(presync), headers)
      ensures ok ==> PresyncOk() && presync == old(presync) + headers
    {
      hide PresyncOk, Setting.Permitted, Setting.TakesFirst;
      PresyncParts();
      for i := 0 to |headers|
        invariant p.Ok() && state == Presync && PresyncOk() && presync == old(presync) + headers[..i]
        invariant accepted == old(accepted) && released == old(released)
        invariant forall k :: 0 <= k < i ==> p.TakesFirst(old(presync) + headers[..k], headers[k])
      {
        assert p.Permitted(presync) && p.Ok() by { PresyncParts(); }
        var good := ProcessSingleHeader(headers[i]);
        if !good {
          return false;
        }
        assert headers[..i + 1] == headers[..i] + [headers[i]];
      }
      PresyncParts();
      assert headers[..|headers|] == headers;
      return true;
    }

    lemma PresyncParts()
      requires PresyncOk()
      ensures p.Ok() && p.Permitted(presync)
    {
    }

    /** The first phase of a message: it must connect, and ends the phase once there is enough work. */
    method StoreCommitments(headers: seq<Header>) returns (ok: bool)
      requires Valid() && state == Presync && headers != []
      modifies this
      ensures HistoryOk(p, presync, accepted, released) && old(presync) <= presync
      ensures accepted == old(accepted) == [] && released == old(released) == []
      ensures ok <==> headers[0].prev == p.hash(p.Last(old(presync))) && p.TakesAllFirst(old(presync), headers)
      ensures ok ==> Valid() && presync == old(presync) + headers
      ensures ok ==> state == if p.Work(presync) >= p.minWork then Redownload else Presync
    {
      hide Matches, Deep, ChainOk, Buffered, RedownloadOk, Setting.Enough, Setting.Work, Setting.Permitted, Setting.Commitments, Setting.TakesAllFirst;
      StartRedownload(p);
      if headers[0].prev != p.hash(lastHeader) {
        return false;
      }
      var good := ProcessEach(headers);
      if !good {
        return false;
      }
      if currentWork >= p.minWork {
        SwitchPhase();
      }
      return true;
    }

    /** There is enough work: start to download again from the start. */
    method SwitchPhase()
      requires PresyncOk() && currentWork >= p.minWork
      modifies this`buffer, this`lastHeight, this`firstPrevHash, this`lastHash, this`redownloadWork, this`state
      ensures state == Redownload && RedownloadOk() && buffer == []
    {
      hide Matches, Deep, ChainOk, Buffered, Setting.Enough, Setting.Work, Setting.Permitted, Setting.Commitments;
      StartRedownload(p);
      buffer := [];
      lastHeight := p.startHeight;
      firstPrevHash := p.hash(p.start);
      lastHash := p.hash(p.start);
      redownloadWork := p.startWork;
      state := Redownload;
    }

    // ----- the second phase -----

    /** The difficulty that the next header is checked against. */
    function PreviousBits(): nat
      reads this
    {
      if buffer != [] then buffer[|buffer| - 1].bits else p.start.bits
    }

    /** It is the difficulty of the last header, just if the buffer is not empty, or nothing was
        accepted yet, or that difficulty is the one of the start. */
    lemma PreviousBitsIs()
      requires RedownloadOk()
      ensures PreviousBits() == p.Last(accepted).bits <==> buffer != [] || accepted == [] || p.Last(accepted).bits == p.start.bits
      ensures p.bufferSize > 0 && !processAll ==> PreviousBits() == p.Last(accepted).bits
    {
      if buffer != [] {
        assert buffer[|buffer| - 1] == Compress(accepted[|accepted| - 1]);
      }
    }

    /** Whether a header of the second phase is taken. */
    ghost predicate Acceptable(h: Header)
      requires p.Ok()
      reads this
    {
      && h.prev == lastHash && p.permitted(lastHeight + 1, PreviousBits(), h.bits)
      && (p.Enough(accepted + [h]) || !p.IsCommitted(|accepted|) || (commitments != [] && commitments[0] == p.BitOf(h)))
    }

    /** Unless nothing is buffered, that depends only on the headers of the two phases. */
    lemma AcceptableIs(h: Header)
      requires RedownloadOk() && (accepted != [] ==> buffer != [])
      ensures Acceptable(h) <==> p.TakesAgain(presync, accepted, h)
    {
      hide Matches, Deep, ChainOk, Setting.Work, Setting.Permitted, Setting.Enough, Setting.Commitments;
      PreviousBitsIs();
      if p.IsCommitted(|accepted|) {
        FirstCommitment(p, presync, |accepted|);
      }
      p.WorkAppend(accepted, h);
    }

    /** As `RedownloadOk`, when a header has been checked and not been buffered yet. */
    ghost predicate CheckedOk(h: Header)
      reads this
    {
      && p.Ok() && p.Permitted(presync) && p.Work(presync) >= p.minWork
      && ChainOk(p, accepted + [h]) && Buffered(accepted, released, buffer) && Deep(p, accepted + [h], released)
      && lastHeight == p.startHeight + |accepted| && firstPrevHash == p.hash(p.Prior(accepted, |released|))
      && redownloadWork == p.Work(accepted + [h]) && (processAll <==> p.Enough(accepted + [h]))
      && Matches(p, presync, accepted + [h]) && |commitments| <= p.maxCommitments
      && (!processAll ==> commitments == p.Commitments(presync, |accepted| + 1))
    }

    /** Check a header, also against the commitment if there is one for its height, and buffer it. */
    method StoreRedownloaded(h: Header) returns (ok: bool)
      requires state == Redownload && RedownloadOk() && (accepted != [] && p.bufferSize > 0 ==> buffer != [])
      modifies this
      ensures state == Redownload && p.Ok() && presync == old(presync) && released == old(released)
      ensures ok <==> old(Acceptable(h))
      ensures if ok then RedownloadOk() && accepted == old(accepted) + [h] && buffer != [] else accepted == old(accepted)
    {
      hide Matches, Deep, ChainOk, Buffered, Setting.Enough, Setting.Work, Setting.Permitted, Setting.Commitments;
      ok := CheckRedownloaded(h);
      if ok {
        BufferedAppend(accepted, released, buffer, h);
        assert (accepted + [h])[..|released|] == accepted[..|released|];
        buffer := buffer + [Compress(h)];
        lastHeight := lastHeight + 1;
        lastHash := p.hash(h);
        accepted := accepted + [h];
      }
    }

    /** The checks of a header of the second phase. */
    method CheckRedownloaded(h: Header) returns (ok: bool)
      requires state == Redownload && RedownloadOk() && (accepted != [] && p.bufferSize > 0 ==> buffer != [])
      modifies this`redownloadWork, this`processAll, this`commitments
      ensures ok <==> old(Acceptable(h))
      ensures ok ==> CheckedOk(h)
    {
      hide Matches, Deep, ChainOk, Buffered, Setting.Enough, Setting.Work, Setting.Permitted;
      var height := lastHeight + 1;
      if h.prev != lastHash {
        return false;
      }
      if !p.permitted(height, PreviousBits(), h.bits) {
        return false;
      }
      PreviousBitsAre();
      ChainAppend(p, accepted, h);
      p.WorkAppend(accepted, h);
      DeepAppend(p, accepted, released, h);
      redownloadWork := (redownloadWork + p.proof(h.bits)) % WORK_RANGE;
      if redownloadWork >= p.minWork {
        processAll := true;
      }
      if !processAll && height % p.period == p.offset {
        if |commitments| == 0 {
          return false;
        }
        var expected := commitments[0];
        commitments := commitments[1..];
        if p.BitOf(h) != expected {
          return false;
        }
      }
      MatchesAppend(p, presync, accepted, h);
      return true;
    }

    lemma PreviousBitsAre()
      requires RedownloadOk() && (accepted != [] && p.bufferSize > 0 ==> buffer != [])
      ensures p.bufferSize > 0 ==> PreviousBits() == p.Last(accepted).bits
    {
      PreviousBitsIs();
    }

    /** Release the headers that are deep enough, or all of them, made whole again. */
    method PopReady() returns (r: seq<Header>)
      requires state == Redownload && RedownloadOk()
      modifies this`buffer, this`firstPrevHash, this`released
      ensures RedownloadOk() && released == old(released) + r
      ensures |buffer| <= p.bufferSize && (processAll ==> buffer == [])
    {
      hide RedownloadOk;
      r := [];
      while |buffer| > p.bufferSize || (|buffer| > 0 && processAll)
        invariant RedownloadOk() && released == old(released) + r
        decreases |buffer|
      {
        var h := PopFirst();
        r := r + [h];
      }
    }

    method PopFirst() returns (h: Header)
      requires RedownloadOk() && (|buffer| > p.bufferSize || (|buffer| > 0 && processAll))
      modifies this`buffer, this`firstPrevHash, this`released
      ensures RedownloadOk() && released == old(released) + [h] && |buffer| == |old(buffer)| - 1
    {
      hide Matches, Deep, ChainOk, Buffered, Setting.Enough, Setting.Work, Setting.Permitted, Setting.Commitments;
      PopBuffered(p, accepted, released, buffer, firstPrevHash);
      h := buffer[0].Full(firstPrevHash);
      PopDeep(p, accepted, released + [h]);
      buffer := buffer[1..];
      firstPrevHash := p.hash(h);
      released := released + [h];
    }

    /** Process a message of headers from the peer. */
    method ProcessNextHeaders(headers: seq<Header>, fullMessage: bool) returns (r: ProcessingResult)
      requires Valid()
      modifies this
      ensures Valid() && released == old(released) + r.headers && old(presync) <= presync && old(accepted) <= accepted
      ensures headers == [] || old(state) == Final ==> r == ProcessingResult([], false, false) && state == old(state)
      ensures headers != [] && old(state) != Final ==> (state == Final <==> !(r.success && r.requestMore))
      ensures old(state) == Presync && headers != [] ==> (r.success <==>
        headers[0].prev == p.hash(p.Last(old(presync))) && p.TakesAllFirst(old(presync), headers))
      ensures old(state) == Redownload && headers != [] && p.bufferSize > 0 ==>
        (r.success <==> p.TakesAllAgain(presync, old(accepted), headers))
      ensures old(state) == Presync && r.success ==> (r.requestMore <==> fullMessage || p.Work(presync) >= p.minWork)
      ensures old(state) == Redownload && r.success ==> (r.requestMore <==> fullMessage && !p.Enough(accepted))
      ensures old(state) == Presync && headers != [] && r.success ==> presync == old(presync) + headers
      ensures old(state) == Redownload && headers != [] && r.success ==> accepted == old(accepted) + headers
      ensures !r.success ==> r.headers == []
      ensures old(state) == Presync ==> r.headers == []
      ensures old(state) == Redownload && headers != [] && r.success ==> released == Due(p, accepted)
    {
      hide PresyncOk, RedownloadOk, HistoryOk, Due;
      r := ProcessingResult([], false, false);
      if headers == [] || state == Final {
        return;
      }
      if state == Presync {
        var ok := StoreCommitments(headers);
        r := ProcessingResult([], ok, ok && (fullMessage || state == Redownload));
      } else {
        r := ProcessRedownload(headers, fullMessage);
      }
      if !(r.success && r.requestMore) {
        Finalize();
      }
    }

    lemma AllDue()
      requires RedownloadOk() && |buffer| <= p.bufferSize && (processAll ==> buffer == [])
      ensures released == Due(p, accepted)
    {
      hide Matches, ChainOk, Setting.Work, Setting.Permitted, Setting.Commitments, Setting.Enough;
    }

    lemma RedownloadHistory()
      requires RedownloadOk()
      ensures HistoryOk(p, presync, accepted, released)
    {
      hide Matches, Deep, ChainOk;
    }

    method ProcessRedownload(headers: seq<Header>, fullMessage: bool) returns (r: ProcessingResult)
      requires Valid() && state == Redownload && headers != []
      modifies this
      ensures presync == old(presync) && old(accepted) <= accepted && released == old(released) + r.headers
      ensures HistoryOk(p, presync, accepted, released) && (r.success && r.requestMore ==> Valid() && state == Redownload)
      ensures r.success ==> accepted == old(accepted) + headers && (r.requestMore <==> fullMessage && !p.Enough(accepted))
      ensures if r.success then released == Due(p, accepted) else r.headers == []
      ensures p.bufferSize > 0 ==> (r.success <==> p.TakesAllAgain(presync, old(accepted), headers))
    {
      hide Due, HistoryOk, Matches, Deep, ChainOk, Setting.Enough, Setting.Work, Setting.Permitted, Setting.Commitments, Setting.TakesAgain, Acceptable;
      for i := 0 to |headers|
        invariant state == Redownload && RedownloadOk() && (i > 0 ==> buffer != [])
        invariant presync == old(presync) && accepted == old(accepted) + headers[..i] && released == old(released)
        invariant p.bufferSize > 0 ==> forall k :: 0 <= k < i ==> p.TakesAgain(presync, old(accepted) + headers[..k], headers[k])
      {
        RedownloadHistory();
        if accepted == [] || buffer != [] {
          AcceptableIs(headers[i]);
        }
        var ok := StoreRedownloaded(headers[i]);
        if !ok {
          return ProcessingResult([], false, false);
        }
        assert headers[..i + 1] == headers[..i] + [headers[i]];
      }
      assert headers[..|headers|] == headers;
      var ready := PopReady();
      RedownloadHistory();
      AllDue();
      var done := buffer == [] && processAll;
      r := ProcessingResult(ready, true, !done && fullMessage);
    }

    /** Any run of messages: what is released altogether is a linked prefix of the headers of the second phase. */
    method Run(messages: seq<(seq<Header>, bool)>) returns (all: seq<Header>)
      requires Valid() && released == []
      modifies this
      ensures Valid() && all == released && HistoryOk(p, presync, accepted, all) && p.Linked(all)
    {
      all := [];
      for i := 0 to |messages|
        invariant Valid() && all == released
      {
        var r := ProcessNextHeaders(messages[i].0, messages[i].1);
        all := all + r.headers;
      }
      ReleasedLinked(p, presync, accepted, released);
    }
  }

  /** Headers that were released follow one another from the start, each permitted after the one before it. */
  lemma ReleasedLinked(p: Setting, presync: seq<Header>, accepted: seq<Header>, released: seq<Header>)
    requires HistoryOk(p, presync, accepted, released)
    ensures p.Linked(released) && (p.bufferSize > 0 ==> p.Permitted(released))
    ensures forall h :: h in released ==> |accepted| - |released| >= p.bufferSize || p.Enough(accepted)
  {
    forall i | 0 <= i < |released| ensures p.LinkedAt(released, i) && (p.bufferSize > 0 ==> p.PermittedAt(released, i)) {
      assert p.LinkedAt(accepted, i) && (p.bufferSize > 0 ==> p.PermittedAt(accepted, i));
    }
  }

  lemma FirstCommitment(p: Setting, presync: seq<Header>, i: nat)
    requires p.Ok() && p.IsCommitted(i)
    ensures p.Commitments(presync, i) != [] <==> i < |presync|
    ensures i < |presync| ==> p.Commitments(presync, i)[0] == p.BitOf(presync[i])
  {
  }

  lemma PopBuffered(p: Setting, accepted: seq<Header>, released: seq<Header>, buffer: seq<Compressed>, prev: nat)
    requires ChainOk(p, accepted) && Buffered(accepted, released, buffer) && buffer != []
    requires prev == p.hash(p.Prior(accepted, |released|))
    ensures buffer[0].Full(prev) == accepted[|released|]
    ensures Buffered(accepted, released + [accepted[|released|]], buffer[1..])
  {
    assert p.LinkedAt(accepted, |released|);
    assert buffer[0] == Compress(accepted[|released| + 0]);
    forall i | 0 <= i < |buffer[1..]| ensures buffer[1..][i] == Compress(accepted[|released| + 1 + i]) {
      assert buffer[1..][i] == buffer[i + 1];
    }
  }

  lemma PopDeep(p: Setting, accepted: seq<Header>, released: seq<Header>)
    requires |accepted| - |released| >= p.bufferSize || p.Enough(accepted)
    ensures Deep(p, accepted, released)
  {
  }

  lemma StartRedownload(p: Setting)
    requires p.Ok()
    ensures ChainOk(p, []) && Buffered([], [], []) && Deep(p, [], []) && !p.Enough([]) && p.Work([]) == p.startWork
    ensures forall hs :: Matches(p, hs, []) && (p.Permitted(hs) ==> HistoryOk(p, hs, [], []))
  {
  }

  lemma ChainAppend(p: Setting, accepted: seq<Header>, h: Header)
    requires ChainOk(p, accepted) && h.prev == p.hash(p.Last(accepted))
    requires p.bufferSize > 0 ==> p.permitted(p.startHeight + 1 + |accepted|, p.Last(accepted).bits, h.bits)
    ensures ChainOk(p, accepted + [h])
  {
    p.LinkedAppend(accepted, h);
    if p.bufferSize > 0 {
      p.PermittedAppend(accepted, h);
    }
  }

  lemma DeepAppend(p: Setting, accepted: seq<Header>, released: seq<Header>, h: Header)
    requires Deep(p, accepted, released)
    ensures Deep(p, accepted + [h], released)
  {
    p.WorkAppend(accepted, h);
  }

  lemma BufferedAppend(accepted: seq<Header>, released: seq<Header>, buffer: seq<Compressed>, h: Header)
    requires Buffered(accepted, released, buffer)
    ensures Buffered(accepted + [h], released, buffer + [Compress(h)])
  {
  }
}
