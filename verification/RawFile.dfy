/**
 Positioned I/O (`src/sys.rs`): `pread` and `pwrite` may move fewer bytes than asked, be
 interrupted, or fail; the loops assemble a whole transfer out of them.  What the system
 will do next is a script, so "under any sequence of short or interrupted transfers" is a
 quantification over scripts.  A script that runs out is followed by full transfers.
 */
module RawFile {
  import opened PageError

  /** What one system call does: moves up to `n` bytes, is interrupted, or fails. */
  datatype IoEvent = Transfer(n: nat) | Interrupted | Failed

  datatype Outcome = Moved(n: nat) | Retry | Broken

  function Min(a: nat, b: nat): nat { if a <= b then a else b }

  /** How many bytes can be read at `offset`. */
  function Available(data: seq<bv8>, offset: nat): nat { if offset <= |data| then |data| - offset else 0 }

  /** The file with `bytes` written at `offset`; a gap past the end is filled with zeros. */
  function WriteAt(data: seq<bv8>, offset: nat, bytes: seq<bv8>): (r: seq<bv8>)
    ensures |r| == if bytes == [] then |data| else if offset + |bytes| > |data| then offset + |bytes| else |data|
  {
    if bytes == [] then data
    else
      var padded := if |data| < offset then data + seq(offset - |data|, _ => 0) else data;
      padded[..offset] + bytes + (if offset + |bytes| <= |padded| then padded[offset + |bytes|..] else [])
  }

  /** Byte `i` after a write: the written one, or the old one, or filler. */
  lemma WriteAtByte(data: seq<bv8>, offset: nat, bytes: seq<bv8>, i: nat)
    requires i < |WriteAt(data, offset, bytes)|
    ensures WriteAt(data, offset, bytes)[i] ==
            if offset <= i < offset + |bytes| then bytes[i - offset] else if i < |data| then data[i] else 0
  {
  }

  /** The bytes written read back. */
  lemma WriteAtInside(data: seq<bv8>, offset: nat, bytes: seq<bv8>)
    requires bytes != []
    ensures WriteAt(data, offset, bytes)[offset..offset + |bytes|] == bytes
  {
    var r := WriteAt(data, offset, bytes);
    forall i | 0 <= i < |bytes| ensures r[offset + i] == bytes[i] { WriteAtByte(data, offset, bytes, offset + i); }
    assert r[offset..offset + |bytes|] == bytes;
  }

  /** Bytes outside the written range, and inside the old file, are unchanged. */
  lemma WriteAtOutside(data: seq<bv8>, offset: nat, bytes: seq<bv8>, lo: nat, hi: nat)
    requires lo <= hi <= |data| && (hi <= offset || offset + |bytes| <= lo)
    ensures hi <= |WriteAt(data, offset, bytes)| && WriteAt(data, offset, bytes)[lo..hi] == data[lo..hi]
  {
    var r := WriteAt(data, offset, bytes);
    forall i | lo <= i < hi ensures r[i] == data[i] { WriteAtByte(data, offset, bytes, i); }
    assert r[lo..hi] == data[lo..hi];
  }

  /** Two adjacent writes are one. */
  lemma WriteAtTwice(data: seq<bv8>, offset: nat, a: seq<bv8>, b: seq<bv8>)
    ensures WriteAt(WriteAt(data, offset, a), offset + |a|, b) == WriteAt(data, offset, a + b)
  {
    var once := WriteAt(data, offset, a);
    var x, y := WriteAt(once, offset + |a|, b), WriteAt(data, offset, a + b);
    assert |x| == |y|;
    forall i | 0 <= i < |x| ensures x[i] == y[i] {
      WriteAtByte(once, offset + |a|, b, i);
      WriteAtByte(data, offset, a + b, i);
      if i < |once| { WriteAtByte(data, offset, a, i); }
    }
  }

  /** The file once the first `n` bytes have landed. */
  function Landed(data: seq<bv8>, offset: nat, bytes: seq<bv8>, n: nat): seq<bv8>
    requires n <= |bytes|
  {
    WriteAt(data, offset, bytes[..n])
  }

  /** What has landed grows by the next transfer. */
  lemma LandMore(data: seq<bv8>, offset: nat, bytes: seq<bv8>, written: nat, n: nat)
    requires written + n <= |bytes|
    ensures WriteAt(Landed(data, offset, bytes, written), offset + written, bytes[written..][..n])
            == Landed(data, offset, bytes, written + n)
  {
    WriteAtTwice(data, offset, bytes[..written], bytes[written..][..n]);
    assert bytes[..written] + bytes[written..][..n] == bytes[..written + n];
  }

  /** The buffer starts with the `n` bytes of the file from `offset` on. */
  ghost predicate Filled(buf: seq<bv8>, data: seq<bv8>, offset: nat, n: nat) {
    n <= |buf| && n <= Available(data, offset) && (n > 0 ==> buf[..n] == data[offset..offset + n])
  }

  lemma FilledMore(buf: seq<bv8>, buf': seq<bv8>, data: seq<bv8>, offset: nat, n: nat, bytes: seq<bv8>)
    requires Filled(buf, data, offset, n) && |buf'| == |buf| && n + |bytes| <= |buf|
    requires bytes != [] ==> offset + n + |bytes| <= |data| && bytes == data[offset + n..offset + n + |bytes|]
    requires forall i :: 0 <= i < |buf| ==> buf'[i] == if n <= i < n + |bytes| then bytes[i - n] else buf[i]
    ensures Filled(buf', data, offset, n + |bytes|)
  {
    assert buf'[..n + |bytes|] == buf[..n] + bytes;
    if bytes != [] && n > 0 {
      assert data[offset..offset + n + |bytes|] == data[offset..offset + n] + bytes;
    }
  }

  /** The script after its first event. */
  function Rest(script: seq<IoEvent>): seq<IoEvent> { if script == [] then [] else script[1..] }

  // ---------- What a script makes of a whole transfer ----------

  /** The next event: as scripted, or as much as fits once the script has run out. */
  function Event(script: seq<IoEvent>, all: nat): IoEvent { if script == [] then Transfer(all) else script[0] }

  /** One `pread` of up to `max` bytes with `left` before the end of the file: zero bytes only there. */
  function OfRead(e: IoEvent, max: nat, left: nat): Outcome {
    match e
    case Failed => Broken
    case Interrupted => Retry
    case Transfer(n) => Moved(Min(Min(max, left), if n == 0 then 1 else n))
  }

  /** One `pwrite` of `max` bytes: any prefix, also none. */
  function OfWrite(e: IoEvent, max: nat): Outcome {
    match e
    case Failed => Broken
    case Interrupted => Retry
    case Transfer(n) => Moved(Min(n, max))
  }

  /** How a loop ends: whether it succeeds, how many bytes it moved, and what is left of the script. */
  datatype Ending = Ending(ok: bool, moved: nat, rest: seq<IoEvent>)

  function Further(n: nat, e: Ending): Ending { e.(moved := n + e.moved) }

  /** `read_at_full` into `room` bytes. */
  function Receiving(script: seq<IoEvent>, room: nat, left: nat): Ending
    decreases |script|
  {
    if room == 0 then Ending(true, 0, script)
    else if script == [] then Ending(true, Min(room, left), [])
    else
      match OfRead(script[0], room, left)
      case Broken => Ending(false, 0, script[1..])
      case Retry => Receiving(script[1..], room, left)
      case Moved(n) => if n == 0 then Ending(true, 0, script[1..]) else Further(n, Receiving(script[1..], room - n, left - n))
  }

  /** `write_all_at` of `todo` bytes. */
  function Sending(script: seq<IoEvent>, todo: nat): Ending
    decreases |script|
  {
    if todo == 0 then Ending(true, 0, script)
    else if script == [] then Ending(true, todo, [])
    else
      match OfWrite(script[0], todo)
      case Broken => Ending(false, 0, script[1..])
      case Retry => Sending(script[1..], todo)
      case Moved(n) => if n == 0 then Ending(false, 0, script[1..]) else Further(n, Sending(script[1..], todo - n))
  }

  /** The position of the first event that makes a write fail. */
  function FirstBad(script: seq<IoEvent>): (k: nat)
    ensures k <= |script|
  {
    if script == [] || script[0] == Failed || script[0] == Transfer(0) then 0 else 1 + FirstBad(script[1..])
  }

  function FirstFailed(script: seq<IoEvent>): (k: nat)
    ensures k <= |script|
  {
    if script == [] || script[0] == Failed then 0 else 1 + FirstFailed(script[1..])
  }

  /** How many bytes these events offer to move; a read never moves none before the end of the file. */
  function Offered(script: seq<IoEvent>, atLeast: nat): nat {
    if script == [] then 0
    else (if script[0].Transfer? then (if script[0].n < atLeast then atLeast else script[0].n) else 0) + Offered(script[1..], atLeast)
  }

  /** A write succeeds if and only if no failed or empty transfer comes before enough has been moved; if one does, all before it landed. */
  lemma {:induction false} SendingExact(script: seq<IoEvent>, todo: nat)
    ensures var bad, e := FirstBad(script), Sending(script, todo);
      && (e.ok <==> bad == |script| || Offered(script[..bad], 0) >= todo)
      && e.moved == if e.ok then todo else Offered(script[..bad], 0)
    decreases |script|
  {
    if script != [] && script[0] != Failed && script[0] != Transfer(0) {
      var rest := script[1..];
      assert script[..FirstBad(script)][1..] == rest[..FirstBad(rest)];
      var n := if script[0].Transfer? then script[0].n else 0;
      if n < todo { SendingExact(rest, todo - n); }
    }
  }

  /** Event `j` is a transfer, made when at least `left` bytes have been moved. */
  predicate SeesEnd(script: seq<IoEvent>, left: nat, j: nat) {
    j < |script| && script[j].Transfer? && Offered(script[..j], 1) >= left
  }

  lemma OfferedFirst(script: seq<IoEvent>, k: nat, atLeast: nat)
    requires 0 < k <= |script|
    ensures Offered(script[..k], atLeast)
         == Offered(script[..1], atLeast) + Offered(script[1..][..k - 1], atLeast)
  {
    assert script[..k][1..] == script[1..][..k - 1];
    assert script[..1][1..] == [];
  }

  /** When the file reaches far enough: a read succeeds if and only if no failed transfer comes before the buffer is full. */
  lemma {:induction false} ReceivingWithin(script: seq<IoEvent>, room: nat, left: nat)
    requires room <= left
    ensures Receiving(script, room, left).ok <==>
            FirstFailed(script) == |script| || Offered(script[..FirstFailed(script)], 1) >= room
    decreases |script|
  {
    if room > 0 && script != [] && script[0] != Failed {
      OfferedFirst(script, FirstFailed(script), 1);
      assert script[..1][1..] == [];
      match OfRead(script[0], room, left)
      case Broken =>
      case Retry => ReceivingWithin(script[1..], room, left);
      case Moved(n) => ReceivingWithin(script[1..], room - n, left - n);
    }
  }

  /** When the file ends first: if and only if no failed transfer comes before one that finds its end. */
  lemma {:induction false} ReceivingPastEnd(script: seq<IoEvent>, room: nat, left: nat)
    requires left < room
    ensures Receiving(script, room, left).ok <==>
            FirstFailed(script) == |script| || exists j: nat :: j < FirstFailed(script) && SeesEnd(script, left, j)
    decreases |script|
  {
    if script != [] && script[0] != Failed {
      var rest := script[1..];
      match OfRead(script[0], room, left)
      case Broken =>
      case Retry =>
        ReceivingPastEnd(rest, room, left);
        SeesEndLater(script, left, left);
      case Moved(n) =>
        if n == 0 {
          assert SeesEnd(script, left, 0);
        } else {
          ReceivingPastEnd(rest, room - n, left - n);
          SeesEndLater(script, left, left - n);
        }
    }
  }

  lemma SeesEndThere(script: seq<IoEvent>, left: nat, left': nat, j: nat)
    requires script != [] && script[0] != Failed && j > 0 && left' == left - Min(left, Offered(script[..1], 1))
    ensures j < FirstFailed(script) && SeesEnd(script, left, j) <==> j - 1 < FirstFailed(script[1..]) && SeesEnd(script[1..], left', j - 1)
  {
    if j < |script| { OfferedFirst(script, j, 1); }
  }

  /** Looking for the end of the file after the first event instead. */
  lemma SeesEndLater(script: seq<IoEvent>, left: nat, left': nat)
    requires script != [] && script[0] != Failed && !SeesEnd(script, left, 0)
    requires left' == left - Min(left, Offered(script[..1], 1))
    ensures (exists j: nat :: j < FirstFailed(script) && SeesEnd(script, left, j))
       <==> (exists j: nat :: j < FirstFailed(script[1..]) && SeesEnd(script[1..], left', j))
  {
    if j: nat :| j < FirstFailed(script) && SeesEnd(script, left, j) {
      SeesEndThere(script, left, left', j);
    }
    if j: nat :| j < FirstFailed(script[1..]) && SeesEnd(script[1..], left', j) {
      SeesEndThere(script, left, left', j + 1);
    }
  }

  lemma {:induction false} FailureScripted(script: seq<IoEvent>, room: nat, left: nat)
    ensures !Receiving(script, room, left).ok ==> Failed in script
    decreases |script|
  {
    if room > 0 && script != [] {
      match OfRead(script[0], room, left)
      case Broken =>
      case Retry => FailureScripted(script[1..], room, left);
      case Moved(n) => if n > 0 { FailureScripted(script[1..], room - n, left - n); }
    }
  }

  lemma {:induction false} WriteFailureScripted(script: seq<IoEvent>, todo: nat)
    ensures !Sending(script, todo).ok ==> Failed in script || Transfer(0) in script
    decreases |script|
  {
    if todo > 0 && script != [] {
      match OfWrite(script[0], todo)
      case Broken =>
      case Retry => WriteFailureScripted(script[1..], todo);
      case Moved(n) => if n > 0 { WriteFailureScripted(script[1..], todo - n); }
    }
  }

  /** A read loop on its way: `got` bytes are in the buffer, and it will end as `all`. */
  ghost predicate ReadSoFar(all: Ending, buf: seq<bv8>, data: seq<bv8>, offset: nat, got: nat, script: seq<IoEvent>) {
    Filled(buf, data, offset, got) && all == Further(got, Receiving(script, |buf| - got, Available(data, offset) - got))
  }

  /** One turn of a loop that has moved `got` bytes so far and will end as `all`. */
  lemma ReceivingTurn(all: Ending, got: nat, script: seq<IoEvent>, room: nat, left: nat)
    requires room > 0 && all == Further(got, Receiving(script, room, left))
    ensures
      match OfRead(Event(script, room), room, left)
      case Broken => all == Ending(false, got, Rest(script))
      case Retry => all == Further(got, Receiving(Rest(script), room, left))
      case Moved(n) => if n == 0 then all == Ending(true, got, Rest(script))
                       else all == Further(got + n, Receiving(Rest(script), room - n, left - n))
  {
  }

  /** What a turn that ended as `o` does for the loop. */
  lemma ReadTurn(all: Ending, before: seq<bv8>, after: seq<bv8>, data: seq<bv8>, offset: nat, got: nat, script: seq<IoEvent>, o: Outcome)
    requires ReadSoFar(all, before, data, offset, got, script) && got < |before| == |after|
    requires o == OfRead(Event(script, |before| - got), |before| - got, Available(data, offset) - got)
    requires if o.Moved? then Filled(after, data, offset, got + o.n) else after == before
    ensures o.Broken? ==> !all.ok && all.rest == Rest(script)
    ensures o.Retry? ==> ReadSoFar(all, after, data, offset, got, Rest(script)) && script != []
    ensures o.Moved? && o.n > 0 ==> got + o.n <= |after| && ReadSoFar(all, after, data, offset, got + o.n, Rest(script))
    ensures o == Moved(0) ==> all.ok && all.rest == Rest(script) && got == Available(data, offset) && Filled(after, data, offset, got)
  {
    ReceivingTurn(all, got, script, |before| - got, Available(data, offset) - got);
  }

  /** A write loop on its way: the first `written` bytes have landed on `base`, and it will end as `all`. */
  ghost predicate WrittenSoFar(all: Ending, base: seq<bv8>, data: seq<bv8>, offset: nat, bytes: seq<bv8>, written: nat, script: seq<IoEvent>) {
    && written <= |bytes| && data == Landed(base, offset, bytes, written)
    && all == Further(written, Sending(script, |bytes| - written))
  }

  lemma SendingTurn(all: Ending, written: nat, script: seq<IoEvent>, todo: nat)
    requires todo > 0 && all == Further(written, Sending(script, todo))
    ensures
      match OfWrite(Event(script, todo), todo)
      case Broken => all == Ending(false, written, Rest(script))
      case Retry => all == Further(written, Sending(Rest(script), todo))
      case Moved(n) => if n == 0 then all == Ending(false, written, Rest(script))
                       else all == Further(written + n, Sending(Rest(script), todo - n))
  {
  }

  class RawFile {
    var data: seq<bv8>
    var script: seq<IoEvent>

    constructor (script: seq<IoEvent>)
      ensures data == [] && this.script == script
    {
      this.data := [];
      this.script := script;
    }

    /** The next event: as scripted, or as much as fits once the script has run out. */
    method NextEvent(all: nat) returns (e: IoEvent)
      modifies this`script
      ensures script == Rest(old(script)) && e == Event(old(script), all)
    {
      if script == [] {
        return Transfer(all);
      }
      e := script[0];
      script := script[1..];
    }

    /** `pread`: zero bytes only at the end of the file. */
    method Pread(max: nat, offset: nat) returns (o: Outcome, bytes: seq<bv8>)
      requires max > 0
      modifies this`script
      ensures script == Rest(old(script)) && o == OfRead(Event(old(script), max), max, Available(data, offset))
      ensures o.Moved? ==> o.n == |bytes| <= max && offset + o.n <= |data| + (if o.n == 0 then offset else 0)
      ensures o.Moved? && o.n > 0 ==> bytes == data[offset..offset + o.n]
      ensures o.Moved? ==> (o.n == 0 <==> Available(data, offset) == 0)
    {
      bytes := [];
      var e := NextEvent(max);
      match e
      case Failed => o := Broken;
      case Interrupted => o := Retry;
      case Transfer(n) =>
        var k := Min(Min(max, Available(data, offset)), if n == 0 then 1 else n);
        if k > 0 {
          bytes := data[offset..offset + k];
        }
        o := Moved(k);
    }

    /** `pwrite`: may write any prefix, also none. */
    method Pwrite(bytes: seq<bv8>, offset: nat) returns (o: Outcome)
      requires bytes != []
      modifies this
      ensures script == Rest(old(script)) && o == OfWrite(Event(old(script), |bytes|), |bytes|)
      ensures o.Moved? ==> o.n <= |bytes| && data == WriteAt(old(data), offset, bytes[..o.n])
      ensures !o.Moved? ==> data == old(data)
    {
      var e := NextEvent(|bytes|);
      match e
      case Failed => o := Broken;
      case Interrupted => o := Retry;
      case Transfer(n) =>
        var k := Min(n, |bytes|);
        data := WriteAt(data, offset, bytes[..k]);
        o := Moved(k);
    }

    /** One turn of `read_at_full`'s loop. */
    method FillMore(buf: array<bv8>, got: nat, offset: nat) returns (o: Outcome)
      requires got < buf.Length && Filled(buf[..], data, offset, got)
      modifies this`script, buf
      ensures data == old(data) && script == Rest(old(script))
      ensures o == OfRead(Event(old(script), buf.Length - got), buf.Length - got, Available(data, offset) - got)
      ensures if o.Moved? then Filled(buf[..], data, offset, got + o.n) else buf[..] == old(buf[..])
    {
      var bytes;
      o, bytes := Pread(buf.Length - got, offset + got);
      if o.Moved? {
        ghost var before := buf[..];
        forall i | 0 <= i < o.n { buf[got + i] := bytes[i]; }
        FilledMore(before, buf[..], data, offset, got, bytes);
      }
    }

    /** `read_at_full`: fills the buffer as far as the file reaches, or fails, exactly as the script has it. */
    method ReadAtFull(buf: array<bv8>, offset: nat) returns (r: Result<nat>)
      modifies this`script, buf
      ensures data == old(data)
      ensures r.Success? ==> r.value == Min(buf.Length, Available(data, offset))
                             && (r.value > 0 ==> buf[..r.value] == data[offset..offset + r.value])
      ensures r.Failure? ==> r.error == Io && Failed in old(script)
      ensures var e := Receiving(old(script), buf.Length, Available(data, offset)); (r.Success? <==> e.ok) && script == e.rest
    {
      var got := 0;
      ghost var all := Receiving(script, buf.Length, Available(data, offset));
      while got < buf.Length
        invariant 0 <= got <= buf.Length && ReadSoFar(all, buf[..], data, offset, got, script)
        invariant data == old(data)
        decreases buf.Length - got, |script|
      {
        ghost var before, was := buf[..], script;
        var o := FillMore(buf, got, offset);
        ReadTurn(all, before, buf[..], data, offset, got, was, o);
        if o.Broken? {
          FailureScripted(old(script), buf.Length, Available(data, offset));
          return Failure(Io);
        }
        if o.Moved? {
          if o.n == 0 {
            break;
          }
          got := got + o.n;
        }
      }
      r := Success(got);
    }

    /** One turn of `write_all_at`'s loop. */
    method WriteMore(bytes: seq<bv8>, offset: nat, written: nat, ghost base: seq<bv8>, ghost all: Ending) returns (o: Outcome)
      requires written < |bytes| && WrittenSoFar(all, base, data, offset, bytes, written, script)
      modifies this
      ensures |script| <= |old(script)|
      ensures o.Retry? ==> WrittenSoFar(all, base, data, offset, bytes, written, script) && |script| < |old(script)|
      ensures o.Moved? && o.n > 0 ==> WrittenSoFar(all, base, data, offset, bytes, written + o.n, script)
      ensures o.Broken? || o == Moved(0) ==>
        data == Landed(base, offset, bytes, written) && all == Ending(false, written, script)
    {
      SendingTurn(all, written, script, |bytes| - written);
      o := Pwrite(bytes[written..], offset + written);
      if o.Moved? {
        LandMore(base, offset, bytes, written, o.n);
      }
    }

    /** `write_all_at`: all of the bytes land, or some prefix did and the call fails, exactly as the script has it. */
    method WriteAllAt(bytes: seq<bv8>, offset: nat) returns (r: Result<()>, ghost landed: nat)
      modifies this
      ensures landed <= |bytes| && data == WriteAt(old(data), offset, bytes[..landed])
      ensures r.Success? ==> landed == |bytes|
      ensures r.Failure? ==> r.error == Io && (Failed in old(script) || Transfer(0) in old(script))
      ensures var e := Sending(old(script), |bytes|); (r.Success? <==> e.ok) && landed == e.moved && script == e.rest
    {
      var written := 0;
      ghost var all := Sending(script, |bytes|);
      WriteFailureScripted(script, |bytes|);
      assert bytes[..0] == [];
      while written < |bytes|
        invariant WrittenSoFar(all, old(data), data, offset, bytes, written, script)
        decreases |bytes| - written, |script|
      {
        var o := WriteMore(bytes, offset, written, old(data), all);
        if o.Broken? {
          return Failure(Io), written;
        }
        if o.Moved? {
          if o.n == 0 {
            return Failure(Io), written;
          }
          written := written + o.n;
        }
      }
      return Success(()), written;
    }
  }
}
