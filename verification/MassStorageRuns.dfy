/** What the mass-storage filter keeps over runs of arbitrary packets. */
module MassStorageRuns {
  import opened Common
  import opened MassStorage
  import opened BulkOnly

  predicate AllFit(packets: seq<seq<byte>>) {
    forall k :: 0 <= k < |packets| ==> Fits(packets[k])
  }

  /** The filter after a run of packets. */
  function Final(c: Config, f: Filter, packets: seq<seq<byte>>): Filter
    requires c.Valid() && AllFit(packets)
    decreases |packets|
  {
    if packets == [] then f else Final(c, Step(c, f, packets[0]).filter, packets[1..])
  }

  lemma {:induction false} FinalAppend(c: Config, f: Filter, packets: seq<seq<byte>>, p: seq<byte>)
    requires c.Valid() && AllFit(packets) && Fits(p)
    ensures Final(c, f, packets + [p]) == Step(c, Final(c, f, packets), p).filter
    decreases |packets|
  {
    hide Step, KindOf;
    if packets == [] {
      assert [p][1..] == [];
    } else {
      assert (packets + [p])[1..] == packets[1..] + [p];
      FinalAppend(c, Step(c, f, packets[0]).filter, packets[1..], p);
    }
  }

  // ----- Inband signalling -----

  predicate OccursAt(data: seq<byte>, needle: seq<byte>, k: int) {
    0 <= k <= |data| - |needle| && data[k..k + |needle|] == needle
  }

  /** `needle` occurs in the first block of `data` as a contiguous substring. */
  ghost predicate Contains(data: seq<byte>, needle: seq<byte>) {
    exists k :: k + |needle| <= BLOCK_SIZE && OccursAt(data, needle, k)
  }

  lemma {:induction false} ScanIsSound(password: seq<byte>, data: seq<byte>, i: nat, ptr: nat)
    requires ptr < |password| && |data| >= BLOCK_SIZE
    requires ptr <= i <= BLOCK_SIZE && data[i - ptr..i] == password[..ptr]
    requires Scan(password, data, i, ptr)
    ensures Contains(data, password)
    decreases BLOCK_SIZE - i
  {
    if Matches(data[i], password[ptr]) {
      assert data[i - ptr..i + 1] == data[i - ptr..i] + [data[i]];
      assert password[..ptr + 1] == password[..ptr] + [password[ptr]];
      if ptr + 1 == |password| {
        assert OccursAt(data, password, i - ptr);
      } else {
        ScanIsSound(password, data, i + 1, ptr + 1);
      }
    } else {
      ScanIsSound(password, data, i + 1, 0);
    }
  }

  /**
   In any run, wherever the inband mode changes, inband signalling is on and the packet is a write
   payload that contains the password for the current mode; wherever the effective blocking
   changes, the packet is a WRITE(10) command and blocking becomes the inband mode.
   */
  lemma InbandIsSound(c: Config, f: Filter, packets: seq<seq<byte>>, k: nat)
    requires c.Valid() && AllFit(packets) && k < |packets|
    ensures var before, after := Final(c, f, packets[..k]), Final(c, f, packets[..k + 1]);
            && (after.inbandBlockWrites != before.inbandBlockWrites ==>
                  && c.inband && before.state == Writing && IsData(packets[k])
                  && Contains(packets[k], if before.inbandBlockWrites then c.unblockPassword else c.blockPassword))
            && (after.blockWrites != before.blockWrites ==>
                  && c.inband && IsWrite(packets[k]) && after.blockWrites == before.inbandBlockWrites)
  {
    assert packets[..k + 1] == packets[..k] + [packets[k]];
    FinalAppend(c, f, packets[..k], packets[k]);
    var before := Final(c, f, packets[..k]);
    if c.inband && KindOf(packets[k]) == Payload && before.state == Writing {
      if Signalled(c, before.inbandBlockWrites, packets[k]) != before.inbandBlockWrites {
        ScanIsSound(c.Password(before.inbandBlockWrites), packets[k], 0, 0);
      }
    }
  }

  /** The matcher is incomplete: after a mismatch it goes on with the next byte, so "aab" hides "ab". */
  lemma ScanMissesOverlap(data: seq<byte>)
    requires |data| == BLOCK_SIZE
    requires data[..3] == [0x61, 0x61, 0x62] && forall i :: 3 <= i < BLOCK_SIZE ==> data[i] == 0
    ensures Contains(data, [0x61, 0x62]) && !Scan([0x61, 0x62], data, 0, 0)
  {
    assert data[0] == data[..3][0] && data[1] == data[..3][1] && data[2] == data[..3][2];
    assert OccursAt(data, [0x61, 0x62], 1);
    NoFirstLetter([0x61, 0x62], data, 3);
  }

  lemma {:induction false} NoFirstLetter(password: seq<byte>, data: seq<byte>, i: nat)
    requires |data| == BLOCK_SIZE && password != []
    requires forall k :: i <= k < BLOCK_SIZE - |password| ==> data[k] != password[0]
    ensures !Scan(password, data, i, 0)
    decreases BLOCK_SIZE - i
  {
    if i < BLOCK_SIZE - |password| {
      NoFirstLetter(password, data, i + 1);
    }
  }

  /** No password is always found: the loop does not look at as many bytes at the end as the password is long. */
  lemma EveryPasswordCanBeMissed(password: seq<byte>) returns (data: seq<byte>)
    requires 0 < |password| <= BLOCK_SIZE
    ensures |data| == BLOCK_SIZE && Contains(data, password) && !Scan(password, data, 0, 0)
  {
    var filler: byte := if password[0] == 0 then 1 else 0;
    data := seq(BLOCK_SIZE - |password|, _ => filler) + password;
    assert OccursAt(data, password, BLOCK_SIZE - |password|);
    NoFirstLetter(password, data, 0);
  }

  // ----- What the matcher finds, exactly -----

  predicate Ascii(password: seq<byte>) {
    forall j :: 0 <= j < |password| ==> password[j] < 0x80
  }

  /** `data` from `i` on agrees with the first `j` letters of the password and differs in the next one. */
  predicate BreaksAfter(password: seq<byte>, data: seq<byte>, i: nat, j: nat) {
    j < |password| && i + j < |data| && data[i..i + j] == password[..j] && data[i + j] != password[j]
  }

  /** Starting afresh at `i`, the matcher starts afresh at `k`: each attempt in between skips the byte it broke on. */
  ghost predicate Restarts(password: seq<byte>, data: seq<byte>, i: nat, k: nat)
    decreases k - i
  {
    || i == k
    || exists j: nat :: i + j < k && BreaksAfter(password, data, i, j) && Restarts(password, data, i + j + 1, k)
  }

  /** The password stands where the matcher starts afresh, at least its own length away from the end. */
  ghost predicate Spotted(password: seq<byte>, data: seq<byte>) {
    && Ascii(password)
    && exists k: nat ::
         k + 2 * |password| <= BLOCK_SIZE && OccursAt(data, password, k) && Restarts(password, data, 0, k)
  }

  lemma {:induction false} FoundIsAscii(password: seq<byte>, data: seq<byte>, i: nat, ptr: nat)
    requires ptr < |password| && |data| >= BLOCK_SIZE && Ascii(password[..ptr])
    requires Scan(password, data, i, ptr)
    ensures Ascii(password)
    decreases BLOCK_SIZE - i
  {
    if Matches(data[i], password[ptr]) {
      assert password[..ptr + 1] == password[..ptr] + [password[ptr]];
      if ptr + 1 == |password| {
        assert password[..ptr + 1] == password;
      } else {
        FoundIsAscii(password, data, i + 1, ptr + 1);
      }
    } else {
      FoundIsAscii(password, data, i + 1, 0);
    }
  }

  lemma {:induction false} FoundIsSpotted(password: seq<byte>, data: seq<byte>, i: nat, ptr: nat) returns (k: nat)
    requires ptr < |password| && |data| >= BLOCK_SIZE && Ascii(password)
    requires ptr <= i <= BLOCK_SIZE && data[i - ptr..i] == password[..ptr]
    requires Scan(password, data, i, ptr)
    ensures k + 2 * |password| <= BLOCK_SIZE && OccursAt(data, password, k)
    ensures i - ptr <= k && Restarts(password, data, i - ptr, k)
    decreases BLOCK_SIZE - i
  {
    if data[i] == password[ptr] {
      assert data[i - ptr..i + 1] == data[i - ptr..i] + [data[i]];
      assert password[..ptr + 1] == password[..ptr] + [password[ptr]];
      if ptr + 1 == |password| {
        k := i - ptr;
      } else {
        k := FoundIsSpotted(password, data, i + 1, ptr + 1);
      }
    } else {
      k := FoundIsSpotted(password, data, i + 1, 0);
      assert BreaksAfter(password, data, i - ptr, ptr);
    }
  }

  /** An attempt that breaks goes on one byte later with nothing matched. */
  lemma {:induction false} BrokenAttempt(password: seq<byte>, data: seq<byte>, i: nat, j: nat, ptr: nat)
    requires |data| >= BLOCK_SIZE && Ascii(password) && ptr <= j
    requires BreaksAfter(password, data, i, j) && i + j < BLOCK_SIZE - |password|
    ensures Scan(password, data, i + ptr, ptr) == Scan(password, data, i + j + 1, 0)
    decreases j - ptr
  {
    if ptr < j {
      assert data[i + ptr] == data[i..i + j][ptr] == password[ptr];
      BrokenAttempt(password, data, i, j, ptr + 1);
    }
  }

  lemma {:induction false} SpottedIsFound(password: seq<byte>, data: seq<byte>, i: nat, k: nat)
    requires |data| >= BLOCK_SIZE && password != [] && Ascii(password)
    requires k + 2 * |password| <= BLOCK_SIZE && OccursAt(data, password, k)
    requires i <= k && Restarts(password, data, i, k)
    ensures Scan(password, data, i, 0)
    decreases k - i
  {
    hide Scan, BreaksAfter, OccursAt, Ascii;
    if i == k {
      MatchedSoFar(password, data, k, 0);
    } else {
      var j: nat :| i + j < k && BreaksAfter(password, data, i, j) && Restarts(password, data, i + j + 1, k);
      SpottedIsFound(password, data, i + j + 1, k);
      BrokenAttempt(password, data, i, j, 0);
    }
  }

  /** The matcher finds a password exactly when it is spotted, for every password and every block. */
  lemma ScanExactly(password: seq<byte>, data: seq<byte>)
    requires password != [] && |data| >= BLOCK_SIZE
    ensures Scan(password, data, 0, 0) <==> Spotted(password, data)
  {
    hide Scan, OccursAt, Restarts;
    if Scan(password, data, 0, 0) {
      FoundIsAscii(password, data, 0, 0);
      var k := FoundIsSpotted(password, data, 0, 0);
    }
    if Spotted(password, data) {
      var k: nat :| k + 2 * |password| <= BLOCK_SIZE && OccursAt(data, password, k) && Restarts(password, data, 0, k);
      SpottedIsFound(password, data, 0, k);
    }
  }

  /** In any run the inband mode changes exactly at the write payloads in which the current password is spotted. */
  lemma InbandExactly(c: Config, f: Filter, packets: seq<seq<byte>>, k: nat)
    requires c.Valid() && AllFit(packets) && k < |packets|
    ensures var before, after := Final(c, f, packets[..k]), Final(c, f, packets[..k + 1]);
            after.inbandBlockWrites != before.inbandBlockWrites <==>
              c.inband && before.state == Writing && IsData(packets[k])
              && Spotted(if before.inbandBlockWrites then c.unblockPassword else c.blockPassword, packets[k])
  {
    hide Spotted, Scan;
    assert packets[..k + 1] == packets[..k] + [packets[k]];
    FinalAppend(c, f, packets[..k], packets[k]);
    if c.inband && IsData(packets[k]) {
      ScanExactly(c.Password(Final(c, f, packets[..k]).inbandBlockWrites), packets[k]);
    }
  }

  lemma {:induction false} NothingBefore(password: seq<byte>, data: seq<byte>, k: nat, i: nat)
    requires password != [] && i <= k <= |data| && forall j :: i <= j < k ==> data[j] != password[0]
    ensures Restarts(password, data, i, k)
    decreases k - i
  {
    if i < k {
      NothingBefore(password, data, k, i + 1);
      assert data[i..i] == password[..0];
      assert BreaksAfter(password, data, i, 0);
    }
  }

  /** For instance, an occurrence far enough from the end is found if the first letter does not occur before it. */
  lemma PlainOccurrenceIsFound(password: seq<byte>, data: seq<byte>, k: nat)
    requires |data| == BLOCK_SIZE && password != [] && Ascii(password)
    requires OccursAt(data, password, k) && k + 2 * |password| <= BLOCK_SIZE
    requires forall j :: 0 <= j < k ==> data[j] != password[0]
    ensures Scan(password, data, 0, 0)
  {
    NothingBefore(password, data, k, 0);
    ScanExactly(password, data);
  }

  lemma {:induction false} MatchedSoFar(password: seq<byte>, data: seq<byte>, k: nat, ptr: nat)
    requires |data| >= BLOCK_SIZE && ptr < |password| && Ascii(password)
    requires OccursAt(data, password, k) && k + 2 * |password| <= BLOCK_SIZE
    ensures Scan(password, data, k + ptr, ptr)
    decreases |password| - ptr
  {
    assert data[k + ptr] == data[k..k + |password|][ptr];
    if ptr + 1 < |password| {
      MatchedSoFar(password, data, k, ptr + 1);
    }
  }

  // ----- Whole-command blocking -----

  /** Whether each packet goes through, starting from `f`. */
  function Passed(c: Config, f: Filter, packets: seq<seq<byte>>): seq<bool>
    requires c.Valid() && AllFit(packets)
    decreases |packets|
  {
    if packets == [] then []
    else
      var out := Step(c, f, packets[0]);
      [out.transmit] + Passed(c, out.filter, packets[1..])
  }

  /** The packets after a write command: data up to the first status go through unless blocked, all others do. */
  function Verdicts(packets: seq<seq<byte>>, open: bool, blocked: bool): seq<bool> {
    if packets == [] then []
    else
      [!(IsData(packets[0]) && open && blocked)] + Verdicts(packets[1..], open && !IsStatus(packets[0]), blocked)
  }

  function DataPackets(packets: seq<seq<byte>>, open: bool): nat {
    if packets == [] then 0
    else One(IsData(packets[0]) && open) + DataPackets(packets[1..], open && !IsStatus(packets[0]))
  }

  lemma SegmentStep(c: Config, f: Filter, data: seq<byte>, open: bool)
    requires c.Valid() && Fits(data) && !IsCommand(data)
    requires open <==> f.state == Writing
    requires open || f.state == Idle
    requires f.blockOffset + 1 < 0x1_0000_0000
    ensures var out := Step(c, f, data);
            var counted := IsData(data) && open;
            && out.transmit == !(counted && f.blockWrites)
            && out.filter.state == (if open && !IsStatus(data) then Writing else Idle)
            && out.filter.blockWrites == f.blockWrites && out.filter.tag == f.tag
            && out.filter.blockCount == f.blockCount
            && out.filter.blockOffset == f.blockOffset + One(counted && f.blockWrites)
            && out.filter.pipe ==
                 f.pipe + (if f.blockWrites && counted && f.blockOffset + 1 == f.blockCount then [f.tag] else [])
  {}

  lemma {:induction false} SegmentVerdicts(c: Config, f: Filter, packets: seq<seq<byte>>, open: bool)
    requires c.Valid() && AllFit(packets) && NoCommands(packets)
    requires f.state == if open then Writing else Idle
    requires f.blockOffset + |packets| < 0x1_0000_0000
    ensures Passed(c, f, packets) == Verdicts(packets, open, f.blockWrites)
    ensures var m := f.blockOffset + DataPackets(packets, open);
            Final(c, f, packets).pipe ==
            f.pipe + (if f.blockWrites && f.blockOffset < f.blockCount <= m then [f.tag] else [])
    decreases |packets|
  {
    hide Step, IsData, IsStatus;
    if packets != [] {
      var f' := Step(c, f, packets[0]).filter;
      SegmentStep(c, f, packets[0], open);
      SegmentVerdicts(c, f', packets[1..], open && !IsStatus(packets[0]));
    }
  }

  /**
   Whatever packets follow a WRITE(10) command up to the next command, and whatever happens to the
   inband mode meanwhile, all of the command's data packets share the fate of the command itself
   and nothing else is suppressed. The command's tag is queued exactly when the command is blocked
   and its n-th data packet has been seen (n >= 1), and only once. Every prefix of a segment is a
   segment, so the tag is queued on the n-th data packet.
   */
  lemma WriteIsAllOrNothing(c: Config, f: Filter, cbw: seq<byte>, packets: seq<seq<byte>>)
    requires c.Valid() && AllFit(packets) && NoCommands(packets) && IsWrite(cbw)
    requires |packets| < 0x1_0000_0000
    ensures var out := Step(c, f, cbw);
            var n := (cbw[0x16] as int) * 0x100 + cbw[0x17];
            && Passed(c, out.filter, packets) == Verdicts(packets, true, !out.transmit)
            && Final(c, out.filter, packets).pipe == f.pipe +
               (if !out.transmit && 1 <= n <= DataPackets(packets, true) then [cbw[4..8]] else [])
  {
    SegmentVerdicts(c, Step(c, f, cbw).filter, packets, true);
  }
}
