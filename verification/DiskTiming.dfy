/** The timing of the simulated disk and its track buffer (machine/disk.cc).

    The platter turns under the head at one sector per `ROTATION_TIME` ticks: during the slot
    [k * ROTATION_TIME, (k + 1) * ROTATION_TIME) the head is over sector k of its track, modulo
    `SECTORS_PER_TRACK`. */
module DiskTiming {
  const SECTORS_PER_TRACK := 32
  const NUM_TRACKS := 32
  const NUM_SECTORS := 1024
  const ROTATION_TIME := 500
  const SEEK_TIME := 500

  type Sector = s: int | 0 <= s < 1024

  /** The last sector asked for, and when the track buffer began to fill. */
  datatype Head = Head(lastSector: Sector, bufferInit: nat)

  function ModuloDiff(to: nat, from: nat): (d: nat)
    ensures d < SECTORS_PER_TRACK
    ensures (from + d) % SECTORS_PER_TRACK == to % SECTORS_PER_TRACK
  {
    (to % SECTORS_PER_TRACK - from % SECTORS_PER_TRACK + SECTORS_PER_TRACK) % SECTORS_PER_TRACK
  }

  function Seek(h: Head, newSector: Sector): (seek: nat)
    ensures seek <= (NUM_TRACKS - 1) * SEEK_TIME
    ensures seek == 0 <==> newSector / SECTORS_PER_TRACK == h.lastSector / SECTORS_PER_TRACK
  {
    var d := newSector / SECTORS_PER_TRACK - h.lastSector / SECTORS_PER_TRACK;
    (if d < 0 then -d else d) * SEEK_TIME
  }

  /** How long until the next sector boundary. */
  function Rotation(time: nat): (rotation: nat)
    ensures rotation < ROTATION_TIME && (time + rotation) % ROTATION_TIME == 0
  {
    var over := time % ROTATION_TIME;
    if over > 0 then ROTATION_TIME - over else 0
  }

  /** The first sector boundary at or after the end of the seek: `timeAfter`. */
  function TimeAfter(h: Head, now: nat, newSector: Sector): (t: nat)
    ensures t % ROTATION_TIME == 0 && now + Seek(h, newSector) <= t
  {
    var seek := Seek(h, newSector);
    now + seek + Rotation(now + seek)
  }

  /** The test for a track buffer hit. */
  predicate BufferHit(h: Head, now: nat, newSector: Sector, writing: bool) {
    && !writing && Seek(h, newSector) == 0
    && (TimeAfter(h, now, newSector) - h.bufferInit) / ROTATION_TIME
         > ModuloDiff(newSector, h.bufferInit / ROTATION_TIME)
  }

  function Latency(h: Head, now: nat, newSector: Sector, writing: bool): nat {
    if BufferHit(h, now, newSector, writing) then ROTATION_TIME
    else
      var t := TimeAfter(h, now, newSector);
      t - now + ModuloDiff(newSector, t / ROTATION_TIME) * ROTATION_TIME + ROTATION_TIME
  }

  // ---------- what the platter does ----------

  /** The sector passes the head during slot k. */
  ghost predicate InSlot(k: nat, sector: Sector) {
    k % SECTORS_PER_TRACK == sector % SECTORS_PER_TRACK
  }

  /** The whole sector went past the head between two times. */
  ghost predicate Passed(sector: Sector, from: nat, until: nat) {
    exists k: nat :: InSlot(k, sector) && from <= k * ROTATION_TIME && (k + 1) * ROTATION_TIME <= until
  }

  lemma SlotCongruent(k: nat, first: nat, d: nat, sector: Sector)
    requires InSlot(k, sector) && first <= k && d < SECTORS_PER_TRACK && InSlot(first + d, sector)
    ensures first + d <= k
  {}

  /** A read is served from the track buffer exactly when, with no seek, its sector has gone past
      the head completely since buffering began. */
  lemma HitIffPassed(h: Head, now: nat, sector: Sector, writing: bool)
    requires h.bufferInit % ROTATION_TIME == 0 && h.bufferInit <= now
    ensures BufferHit(h, now, sector, writing) <==>
            && !writing && Seek(h, sector) == 0
            && Passed(sector, h.bufferInit, TimeAfter(h, now, sector))
  {
    var t := TimeAfter(h, now, sector);
    var first := h.bufferInit / ROTATION_TIME;
    var d := ModuloDiff(sector, first);
    assert InSlot(first + d, sector);
    assert h.bufferInit == first * ROTATION_TIME && t == t / ROTATION_TIME * ROTATION_TIME;
    if (t - h.bufferInit) / ROTATION_TIME > d {
      assert (first + d + 1) * ROTATION_TIME <= t;
    } else {
      forall k: nat | InSlot(k, sector) && h.bufferInit <= k * ROTATION_TIME
        ensures (k + 1) * ROTATION_TIME > t
      {
        SlotCongruent(k, first, d, sector);
      }
    }
  }

  /** A read that is served from the track buffer takes as long as one sector takes to transfer. */
  lemma HitTakesOneSector(h: Head, now: nat, sector: Sector)
    requires h.bufferInit % ROTATION_TIME == 0 && h.bufferInit <= now && Seek(h, sector) == 0
    requires Passed(sector, h.bufferInit, TimeAfter(h, now, sector))
    ensures Latency(h, now, sector, false) == ROTATION_TIME
  {
    HitIffPassed(h, now, sector, false);
  }

  /** The head needs `SEEK_TIME` for every track that it crosses, in either direction: as long for a track that
      lies between as to there and from there on. */
  lemma SeekPerTrack(a: Sector, b: Sector, c: Sector, at: nat)
    requires a / SECTORS_PER_TRACK <= b / SECTORS_PER_TRACK <= c / SECTORS_PER_TRACK
    ensures Seek(Head(a, at), c) == Seek(Head(a, at), b) + Seek(Head(b, at), c) == Seek(Head(c, at), a)
    ensures c / SECTORS_PER_TRACK == b / SECTORS_PER_TRACK + 1 ==> Seek(Head(b, at), c) == SEEK_TIME
  {}

  /** Any other request completes exactly as its sector ends, in the first slot of that sector
      that begins once the seek is over; and it takes no longer than a fixed bound. */
  lemma MissEndsWithSector(h: Head, now: nat, sector: Sector, writing: bool) returns (k: nat)
    requires !BufferHit(h, now, sector, writing)
    ensures InSlot(k, sector) && now + Latency(h, now, sector, writing) == (k + 1) * ROTATION_TIME
    ensures now + Seek(h, sector) <= k * ROTATION_TIME
    ensures forall j: nat :: InSlot(j, sector) && now + Seek(h, sector) <= j * ROTATION_TIME ==> k <= j
    ensures Latency(h, now, sector, writing) <
            (NUM_TRACKS - 1) * SEEK_TIME + (SECTORS_PER_TRACK + 1) * ROTATION_TIME
  {
    var t := TimeAfter(h, now, sector);
    var first := t / ROTATION_TIME;
    var d := ModuloDiff(sector, first);
    k := first + d;
    assert t == first * ROTATION_TIME;
    forall j: nat | InSlot(j, sector) && now + Seek(h, sector) <= j * ROTATION_TIME ensures k <= j {
      assert t < now + Seek(h, sector) + ROTATION_TIME;
      SlotCongruent(j, first, d, sector);
    }
  }

  // ---------- the device ----------

  class Disk {
    var active: bool
    var lastSector: Sector
    var bufferInit: nat
    /** When the last request completes. */
    ghost var due: nat

    ghost predicate Valid()
      reads this
    {
      bufferInit % ROTATION_TIME == 0 && bufferInit <= due
    }

    ghost function At(): Head
      reads this
    {
      Head(lastSector, bufferInit)
    }

    constructor ()
      ensures Valid() && !active && due == 0
    {
      active, lastSector, bufferInit, due := false, 0, 0, 0;
    }

    /** `ReadRequest` and `WriteRequest`.  The device takes one request at a time, and the
        completion interrupt of the previous one is never early. */
    method Request(now: nat, sector: Sector, writing: bool) returns (ticks: nat)
      requires Valid() && !active && due <= now
      modifies this
      ensures Valid() && active && due == now + ticks
      ensures ticks == Latency(old(At()), now, sector, writing) && ticks > 0
      ensures lastSector == sector
      ensures bufferInit == if Seek(old(At()), sector) == 0 then old(bufferInit) else TimeAfter(old(At()), now, sector)
      ensures BufferHit(old(At()), now, sector, writing) <==>
        !writing && Seek(old(At()), sector) == 0 && Passed(sector, old(bufferInit), TimeAfter(old(At()), now, sector))
    {
      HitIffPassed(At(), now, sector, writing);
      var seek := Seek(Head(lastSector, bufferInit), sector);
      var rotation := Rotation(now + seek);
      var timeAfter := now + seek + rotation;
      if !writing && seek == 0
         && (timeAfter - bufferInit) / ROTATION_TIME > ModuloDiff(sector, bufferInit / ROTATION_TIME) {
        ticks := ROTATION_TIME;
      } else {
        rotation := rotation + ModuloDiff(sector, timeAfter / ROTATION_TIME) * ROTATION_TIME;
        ticks := seek + rotation + ROTATION_TIME;
      }
      active := true;
      if seek != 0 {
        bufferInit := timeAfter;
      }
      lastSector := sector;
      due := now + ticks;
    }

    method HandleInterrupt(now: nat)
      requires Valid() && active && due <= now
      modifies this
      ensures Valid() && !active && due == old(due) && At() == old(At())
    {
      active := false;
    }
  }
}
