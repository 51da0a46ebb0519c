/** machine/disk.cc: how long a request takes, with the seek, the rotation and the track buffer. */
module DiskTiming {
  import opened SectorStore

  const SECTORS_PER_TRACK := 32
  const NUM_TRACKS := 32
  const SEEK_TIME := 500
  const ROTATION_TIME := 500

  predicate LegalSector(s: int) {
    0 <= s < NUM_SECTORS
  }

  function Track(s: nat): nat {
    s / SECTORS_PER_TRACK
  }

  function Distance(a: int, b: int): nat {
    if a < b then b - a else a - b
  }

  /** Whether the head, over the track of sector, is at the start of that sector at the given time. */
  predicate HeadAt(time: int, sector: nat) {
    time >= 0 && time % ROTATION_TIME == 0 && time / ROTATION_TIME % SECTORS_PER_TRACK == sector % SECTORS_PER_TRACK
  }

  /** Sectors of rotation between the head at sector "from" and "to". */
  function ModuloDiff(to: nat, from: nat): (d: nat)
    ensures d < SECTORS_PER_TRACK && (from + d) % SECTORS_PER_TRACK == to % SECTORS_PER_TRACK
  {
    (to % SECTORS_PER_TRACK - from % SECTORS_PER_TRACK + SECTORS_PER_TRACK) % SECTORS_PER_TRACK
  }

  function Seek(newSector: nat, lastSector: nat): nat {
    Distance(Track(newSector), Track(lastSector)) * SEEK_TIME
  }

  /** What is left of the sector under the head when the seek is over. */
  function Rotation(time: nat): (r: nat)
    ensures r < ROTATION_TIME && (time + r) % ROTATION_TIME == 0
  {
    if time % ROTATION_TIME > 0 then ROTATION_TIME - time % ROTATION_TIME else 0
  }

  /** The first sector boundary after the seek. */
  function TimeAfter(now: nat, newSector: nat, lastSector: nat): nat {
    now + Seek(newSector, lastSector) + Rotation(now + Seek(newSector, lastSector))
  }

  /** Whether a read is answered from the track buffer. While the buffer starts later than the next boundary the
      quotient in the source is not positive, so that it is no hit. */
  predicate BufferHit(now: nat, newSector: nat, writing: bool, lastSector: nat, bufferInit: nat) {
    && !writing && Seek(newSector, lastSector) == 0
    && bufferInit <= TimeAfter(now, newSector, lastSector)
    && ModuloDiff(newSector, bufferInit / ROTATION_TIME)
         < (TimeAfter(now, newSector, lastSector) - bufferInit) / ROTATION_TIME
  }

  function Latency(now: nat, newSector: nat, writing: bool, lastSector: nat, bufferInit: nat): nat {
    if BufferHit(now, newSector, writing, lastSector, bufferInit) then ROTATION_TIME
    else
      var after := TimeAfter(now, newSector, lastSector);
      after - now + ModuloDiff(newSector, after / ROTATION_TIME) * ROTATION_TIME + ROTATION_TIME
  }

  lemma Later(time: nat, d: nat)
    requires time % ROTATION_TIME == 0
    ensures (time + d * ROTATION_TIME) % ROTATION_TIME == 0
    ensures (time + d * ROTATION_TIME) / ROTATION_TIME == time / ROTATION_TIME + d
  {
    assert time == time / 500 * 500;
    assert time + d * 500 == (time / 500 + d) * 500;
  }

  lemma SeekBound(newSector: nat, lastSector: nat)
    requires LegalSector(newSector) && LegalSector(lastSector)
    ensures Seek(newSector, lastSector) <= (NUM_TRACKS - 1) * SEEK_TIME
    ensures Seek(newSector, lastSector) == 0 <==> Track(newSector) == Track(lastSector)
  {
    assert Track(newSector) < 32 && Track(lastSector) < 32;
  }

  /** A seek takes SEEK_TIME for every track on the way: none on the same track, and one more for each track further. */
  lemma SeekPerTrack(newSector: nat, lastSector: nat)
    ensures Seek(newSector, lastSector) == Seek(lastSector, newSector)
    ensures Track(newSector) == Track(lastSector) ==> Seek(newSector, lastSector) == 0
    ensures Track(newSector) >= Track(lastSector) ==>
      Seek(newSector + 32, lastSector) == Seek(newSector, lastSector) + 500
  {
    assert Track(newSector + 32) == Track(newSector) + 1;
  }

  /** Every request takes at least one sector time and at most the longest seek, a sector to wait for the boundary
      and one full turn. */
  lemma LatencyBounds(now: nat, newSector: nat, writing: bool, lastSector: nat, bufferInit: nat)
    requires LegalSector(newSector) && LegalSector(lastSector)
    ensures ROTATION_TIME <= Latency(now, newSector, writing, lastSector, bufferInit)
    ensures Latency(now, newSector, writing, lastSector, bufferInit)
      <= (NUM_TRACKS - 1) * SEEK_TIME + (ROTATION_TIME - 1) + SECTORS_PER_TRACK * ROTATION_TIME
  {
    SeekBound(newSector, lastSector);
  }

  /** Without the buffer, the transfer starts with the head at the beginning of the target sector. */
  lemma TransferStartsOnSector(now: nat, newSector: nat, writing: bool, lastSector: nat, bufferInit: nat)
    requires !BufferHit(now, newSector, writing, lastSector, bufferInit)
    ensures var start := now + Latency(now, newSector, writing, lastSector, bufferInit) - ROTATION_TIME;
      HeadAt(start, newSector) && start >= now + Seek(newSector, lastSector)
  {
    var after := TimeAfter(now, newSector, lastSector);
    Later(after, ModuloDiff(newSector, after / ROTATION_TIME));
  }

  lemma Turns(time: nat, d: nat, sector: nat)
    requires time % ROTATION_TIME == 0
    ensures HeadAt(time + d * ROTATION_TIME, sector) <==> (time / 500 + d) % 32 == sector % 32
  {
    Later(time, d);
  }

  /** The head passes the start of a sector once in a turn: the distance is the first time it does. */
  lemma FirstPass(time: nat, d: nat, sector: nat)
    requires time % ROTATION_TIME == 0 && HeadAt(time + d * ROTATION_TIME, sector)
    ensures ModuloDiff(sector, time / ROTATION_TIME) <= d
  {
    Turns(time, d, sector);
  }

  /** It is the first time after the seek at which the head is there: the request does not wait for a second turn. */
  lemma TransferStartsAtOnce(now: nat, newSector: nat, writing: bool, lastSector: nat, bufferInit: nat, t: nat)
    requires !BufferHit(now, newSector, writing, lastSector, bufferInit)
    requires now + Seek(newSector, lastSector) <= t && HeadAt(t, newSector)
    ensures now + Latency(now, newSector, writing, lastSector, bufferInit) - ROTATION_TIME <= t
  {
    hide Seek;
    var after := TimeAfter(now, newSector, lastSector);
    assert t % 500 == 0 && after % 500 == 0 && after < now + Seek(newSector, lastSector) + 500;
    var d := t / 500 - after / 500;
    assert d >= 0 && t == after + d * 500;
    FirstPass(after, d, newSector);
  }

  /** When the head first came to the start of the sector, after the buffer began to fill. */
  function PassStart(newSector: nat, bufferInit: nat): nat {
    bufferInit + ModuloDiff(newSector, bufferInit / ROTATION_TIME) * ROTATION_TIME
  }

  /** A hit: the head is on the right track, and the whole sector has gone past it since bufferInit by the next
      sector boundary, which is no later than the end of the request. */
  lemma HitHasPassed(now: nat, newSector: nat, writing: bool, lastSector: nat, bufferInit: nat)
    requires LegalSector(newSector) && LegalSector(lastSector) && bufferInit % ROTATION_TIME == 0
    requires BufferHit(now, newSector, writing, lastSector, bufferInit)
    ensures Track(newSector) == Track(lastSector)
    ensures bufferInit <= PassStart(newSector, bufferInit) && HeadAt(PassStart(newSector, bufferInit), newSector)
    ensures PassStart(newSector, bufferInit) + ROTATION_TIME <= TimeAfter(now, newSector, lastSector)
    ensures TimeAfter(now, newSector, lastSector) <= now + Latency(now, newSector, writing, lastSector, bufferInit)
  {
    SeekBound(newSector, lastSector);
    Later(bufferInit, ModuloDiff(newSector, bufferInit / ROTATION_TIME));
  }

  /** A read hits exactly when the head is on the track already, and the whole sector has gone past it at some time
      since bufferInit and by the next sector boundary; it then takes one sector time. */
  lemma HitExactly(now: nat, newSector: nat, writing: bool, lastSector: nat, bufferInit: nat)
    requires LegalSector(newSector) && LegalSector(lastSector) && bufferInit % ROTATION_TIME == 0
    ensures BufferHit(now, newSector, writing, lastSector, bufferInit) <==>
      && !writing && Track(newSector) == Track(lastSector)
      && exists start: nat ::
           && HeadAt(start, newSector)
           && bufferInit <= start && start + ROTATION_TIME <= TimeAfter(now, newSector, lastSector)
    ensures BufferHit(now, newSector, writing, lastSector, bufferInit) ==>
      Latency(now, newSector, writing, lastSector, bufferInit) == 500
  {
    SeekBound(newSector, lastSector);
    var after := TimeAfter(now, newSector, lastSector);
    if BufferHit(now, newSector, writing, lastSector, bufferInit) {
      HitHasPassed(now, newSector, writing, lastSector, bufferInit);
    }
    if start: nat :| HeadAt(start, newSector) && bufferInit <= start && start + 500 <= after {
      hide Seek;
      var d := start / 500 - bufferInit / 500;
      assert start == bufferInit + d * 500;
      FirstPass(bufferInit, d, newSector);
      assert (after - bufferInit) / 500 >= d + 1;
    }
  }

  /** By the time of the request itself it has gone past, unless it is the very sector that is still under the head. */
  lemma HitHasPassedByNow(now: nat, newSector: nat, writing: bool, lastSector: nat, bufferInit: nat)
    requires LegalSector(newSector) && LegalSector(lastSector) && bufferInit % ROTATION_TIME == 0
    requires BufferHit(now, newSector, writing, lastSector, bufferInit)
    ensures PassStart(newSector, bufferInit) + ROTATION_TIME <= now <==>
      !(now % ROTATION_TIME != 0 && (TimeAfter(now, newSector, lastSector) - bufferInit) / ROTATION_TIME
          == ModuloDiff(newSector, bufferInit / ROTATION_TIME) + 1)
  {
    var d, after := ModuloDiff(newSector, bufferInit / ROTATION_TIME), TimeAfter(now, newSector, lastSector);
    assert (after - bufferInit) % 500 == 0;
  }

  /** Such a sector exists: 250 ticks after the start a read of sector 0 hits, half of it still to come. */
  lemma HitBeforePassed()
    ensures BufferHit(250, 0, false, 0, 0) && PassStart(0, 0) + ROTATION_TIME > 250
  {
  }

  // ---------------------------------------------------------------------------
  // Sequences of requests

  /** A request issued after a pause, and how late its interrupt is handled. */
  datatype Job = Job(sector: int, writing: bool, pause: nat, late: nat)

  /** What one request of a run met and how long it took. */
  datatype Served = Served(now: nat, job: Job, lastSector: nat, bufferInit: nat, ticks: nat)

  /** The device between requests: the clock, the last sector and when the track buffer began to fill. */
  datatype Rest = Rest(now: nat, lastSector: nat, bufferInit: nat)

  function Serving(rest: Rest, job: Job): Served
    requires LegalSector(job.sector)
  {
    var now := rest.now + job.pause;
    Served(now, job, rest.lastSector, rest.bufferInit,
           Latency(now, job.sector, job.writing, rest.lastSector, rest.bufferInit))
  }

  /** The device after a request: a seek restarts the buffer at the first sector boundary on the new track. */
  function Resting(r: Served): Rest
    requires LegalSector(r.job.sector)
  {
    Rest(r.now + r.ticks + r.job.late, r.job.sector,
         if Seek(r.job.sector, r.lastSector) == 0 then r.bufferInit else TimeAfter(r.now, r.job.sector, r.lastSector))
  }

  /** The log of a sequence of requests. */
  function Timeline(rest: Rest, jobs: seq<Job>): (log: seq<Served>)
    requires forall k :: 0 <= k < |jobs| ==> LegalSector(jobs[k].sector)
    ensures |log| == |jobs|
    decreases |jobs|
  {
    if jobs == [] then []
    else
      var r := Serving(rest, jobs[0]);
      [r] + Timeline(Resting(r), jobs[1..])
  }

  /** bufferInit is a sector boundary that is not in the future. */
  ghost predicate RestOk(rest: Rest) {
    LegalSector(rest.lastSector) && rest.bufferInit <= rest.now && rest.bufferInit % ROTATION_TIME == 0
  }

  ghost predicate WellTimed(r: Served) {
    && LegalSector(r.job.sector) && LegalSector(r.lastSector)
    && r.bufferInit <= r.now && r.bufferInit % ROTATION_TIME == 0
    && ROTATION_TIME <= r.ticks
    && r.ticks <= (NUM_TRACKS - 1) * SEEK_TIME + (ROTATION_TIME - 1) + SECTORS_PER_TRACK * ROTATION_TIME
    && if BufferHit(r.now, r.job.sector, r.job.writing, r.lastSector, r.bufferInit)
       then
         && PassStart(r.job.sector, r.bufferInit) + ROTATION_TIME <= r.now + r.ticks
         && Track(r.job.sector) == Track(r.lastSector)
       else HeadAt(r.now + r.ticks - ROTATION_TIME, r.job.sector)
  }

  lemma ServingWellTimed(rest: Rest, job: Job)
    requires RestOk(rest) && LegalSector(job.sector)
    ensures WellTimed(Serving(rest, job)) && RestOk(Resting(Serving(rest, job)))
  {
    var now, lastSector, bufferInit := rest.now + job.pause, rest.lastSector, rest.bufferInit;
    LatencyBounds(now, job.sector, job.writing, lastSector, bufferInit);
    if BufferHit(now, job.sector, job.writing, lastSector, bufferInit) {
      HitHasPassed(now, job.sector, job.writing, lastSector, bufferInit);
    } else {
      TransferStartsOnSector(now, job.sector, job.writing, lastSector, bufferInit);
    }
  }

  /** Every request of every sequence is well timed. */
  lemma {:induction false} TimelineWellTimed(rest: Rest, jobs: seq<Job>, k: nat)
    requires RestOk(rest) && (forall i :: 0 <= i < |jobs| ==> LegalSector(jobs[i].sector)) && k < |jobs|
    ensures Timeline(rest, jobs)[k].job == jobs[k]
    ensures WellTimed(Timeline(rest, jobs)[k])
    decreases |jobs|
  {
    hide WellTimed, RestOk;
    ServingWellTimed(rest, jobs[0]);
    if |jobs| > 1 {
      TimelineWellTimed(Resting(Serving(rest, jobs[0])), jobs[1..], if k > 0 then k - 1 else 0);
    }
  }

  /** From the second on, a request meets what the one before left. */
  lemma {:induction false} TimelineLinks(rest: Rest, jobs: seq<Job>, k: nat)
    requires (forall i :: 0 <= i < |jobs| ==> LegalSector(jobs[i].sector)) && k + 1 < |jobs|
    ensures Timeline(rest, jobs)[k].job == jobs[k]
    ensures Timeline(rest, jobs)[k + 1] == Serving(Resting(Timeline(rest, jobs)[k]), jobs[k + 1])
    ensures var one, two := Timeline(rest, jobs)[k], Timeline(rest, jobs)[k + 1];
      && two.now == one.now + one.ticks + jobs[k].late + jobs[k + 1].pause
      && two.lastSector == jobs[k].sector
      && two.ticks == Latency(two.now, jobs[k + 1].sector, jobs[k + 1].writing, two.lastSector, two.bufferInit)
    decreases |jobs|
  {
    if k > 0 {
      TimelineLinks(Resting(Serving(rest, jobs[0])), jobs[1..], k - 1);
    }
  }

  /** Requests from number j up to number k stay on one track. */
  ghost predicate StayedOn(jobs: seq<Job>, j: nat, k: nat, track: nat) {
    k <= |jobs| && forall i :: j <= i < k ==> jobs[i].sector >= 0 && Track(jobs[i].sector) == track
  }

  /** bufferInit is the first sector boundary after the seek of this request. */
  ghost predicate StartedBy(r: Served, bufferInit: nat) {
    && LegalSector(r.job.sector) && Track(r.lastSector) != Track(r.job.sector)
    && var arrival := r.now + Seek(r.job.sector, r.lastSector);
    arrival <= bufferInit < arrival + ROTATION_TIME && bufferInit % ROTATION_TIME == 0
  }

  /** The seek of request number j - 1 started the buffer that request k meets, or none did when j is 0, and all
      requests since have been for this track. */
  ghost predicate BufferFrom(rest: Rest, jobs: seq<Job>, log: seq<Served>, k: nat, j: nat) {
    && j <= k < |log| == |jobs|
    && if j == 0
       then
         && log[k].bufferInit == rest.bufferInit && Track(log[k].lastSector) == Track(rest.lastSector)
         && StayedOn(jobs, 0, k, Track(log[k].lastSector))
       else
         && log[j - 1].job == jobs[j - 1] && StartedBy(log[j - 1], log[k].bufferInit)
         && StayedOn(jobs, j - 1, k, Track(log[k].lastSector))
  }

  /** The buffer holds what the head has passed since it came to the track. */
  lemma {:induction false} BufferSinceSeek(rest: Rest, jobs: seq<Job>, k: nat)
    requires (forall i :: 0 <= i < |jobs| ==> LegalSector(jobs[i].sector)) && k < |jobs|
    ensures exists j :: BufferFrom(rest, jobs, Timeline(rest, jobs), k, j)
  {
    if k == 0 {
      assert BufferFrom(rest, jobs, Timeline(rest, jobs), 0, 0);
    } else {
      BufferSinceSeek(rest, jobs, k - 1);
      TimelineLinks(rest, jobs, k - 1);
      var log := Timeline(rest, jobs);
      hide Timeline;
      var j: nat :| BufferFrom(rest, jobs, log, k - 1, j);
      SeekZero(jobs[k - 1].sector, log[k - 1].lastSector);
      BufferStep(rest, jobs, log, k, j);
    }
  }

  lemma BufferStep(rest: Rest, jobs: seq<Job>, log: seq<Served>, k: nat, j: nat)
    requires 0 < k < |jobs| && BufferFrom(rest, jobs, log, k - 1, j)
    requires LegalSector(jobs[k - 1].sector) && log[k - 1].job == jobs[k - 1] && LegalSector(jobs[k].sector)
    requires log[k] == Serving(Resting(log[k - 1]), jobs[k])
    requires Seek(jobs[k - 1].sector, log[k - 1].lastSector) == 0 <==>
      Track(jobs[k - 1].sector) == Track(log[k - 1].lastSector)
    ensures exists i :: BufferFrom(rest, jobs, log, k, i)
  {
    hide Seek, Latency;
    if Seek(jobs[k - 1].sector, log[k - 1].lastSector) == 0 {
      assert BufferFrom(rest, jobs, log, k, j);
    } else {
      assert StartedBy(log[k - 1], log[k].bufferInit);
      assert BufferFrom(rest, jobs, log, k, k);
    }
  }

  lemma SeekZero(a: nat, b: nat)
    ensures Seek(a, b) == 0 <==> Track(a) == Track(b)
  {
  }

  // ---------------------------------------------------------------------------

  /** The device. totalTicks is the clock, due the time at which the pending interrupt is to occur. */
  class Disk {
    var lastSector: int
    var bufferInit: int
    var active: bool
    var totalTicks: int
    ghost var due: int

    ghost predicate Valid()
      reads this
    {
      && LegalSector(lastSector) && 0 <= totalTicks
      && 0 <= bufferInit && bufferInit % ROTATION_TIME == 0
      && bufferInit <= (if active then due else totalTicks)
    }

    ghost function AtRest(): Rest
      requires Valid()
      reads this
    {
      Rest(totalTicks, lastSector, bufferInit)
    }

    constructor (now: nat)
      ensures Valid() && !active && totalTicks == now && lastSector == 0 && bufferInit == 0
    {
      lastSector, bufferInit, active, totalTicks, due := 0, 0, false, now, 0;
    }

    /** ReadRequest or WriteRequest: the time after which its interrupt comes. */
    method Request(sectorNumber: int, writing: bool) returns (ticks: int)
      requires Valid() && !active && LegalSector(sectorNumber)
      modifies this
      ensures Valid() && active && totalTicks == old(totalTicks) && lastSector == sectorNumber
      ensures ticks == Latency(totalTicks, sectorNumber, writing, old(lastSector), old(bufferInit))
      ensures due == totalTicks + ticks
      ensures Seek(sectorNumber, old(lastSector)) == 0 ==> bufferInit == old(bufferInit)
      ensures Seek(sectorNumber, old(lastSector)) != 0 ==>
        bufferInit == TimeAfter(totalTicks, sectorNumber, old(lastSector))
      ensures old(bufferInit) <= totalTicks
    {
      LatencyBounds(totalTicks, sectorNumber, writing, lastSector, bufferInit);
      ticks := ComputeLatency(sectorNumber, writing);
      active := true;
      due := totalTicks + ticks;
      if Seek(sectorNumber, lastSector) != 0 {
        bufferInit := TimeAfter(totalTicks, sectorNumber, lastSector);
      }
      lastSector := sectorNumber;
    }

    method ComputeLatency(newSector: int, writing: bool) returns (ticks: int)
      requires Valid() && LegalSector(newSector) && bufferInit <= totalTicks
      ensures ticks == Latency(totalTicks, newSector, writing, lastSector, bufferInit)
    {
      var seek := Seek(newSector, lastSector);
      var rotation := Rotation(totalTicks + seek);
      var timeAfter := totalTicks + seek + rotation;
      if !writing && seek == 0
         && (timeAfter - bufferInit) / ROTATION_TIME > ModuloDiff(newSector, bufferInit / ROTATION_TIME)
      {
        return ROTATION_TIME;
      }
      rotation := rotation + ModuloDiff(newSector, timeAfter / ROTATION_TIME) * ROTATION_TIME;
      return seek + rotation + ROTATION_TIME;
    }

    /** The interrupt, which is never early. */
    method HandleInterrupt(now: int)
      requires Valid() && active && now >= due && now >= totalTicks
      modifies this
      ensures Valid() && !active && totalTicks == now && lastSector == old(lastSector) && bufferInit == old(bufferInit)
    {
      totalTicks := now;
      active := false;
    }

    /** Time goes on while the disk is idle. */
    method Idle(now: int)
      requires Valid() && !active && now >= totalTicks
      modifies this
      ensures Valid() && !active && totalTicks == now && lastSector == old(lastSector) && bufferInit == old(bufferInit)
    {
      totalTicks := now;
    }
  }

  /** The device serves any sequence of requests exactly along the timeline. */
  method ServeAll(start: nat, jobs: seq<Job>) returns (log: seq<Served>)
    requires forall k :: 0 <= k < |jobs| ==> LegalSector(jobs[k].sector)
    ensures log == Timeline(Rest(start, 0, 0), jobs)
  {
    hide Serving, Resting;
    var disk := new Disk(start);
    log := [];
    for i := 0 to |jobs|
      invariant fresh(disk) && disk.Valid() && !disk.active
      invariant Timeline(Rest(start, 0, 0), jobs) == log + Timeline(disk.AtRest(), jobs[i..])
    {
      var served := Serve(disk, jobs[i]);
      log := log + [served];
    }
  }

  method Serve(disk: Disk, job: Job) returns (served: Served)
    requires disk.Valid() && !disk.active && LegalSector(job.sector)
    modifies disk
    ensures disk.Valid() && !disk.active
    ensures served == Serving(old(disk.AtRest()), job) && disk.AtRest() == Resting(served)
  {
    disk.Idle(disk.totalTicks + job.pause);
    var now, lastSector, bufferInit := disk.totalTicks, disk.lastSector, disk.bufferInit;
    var ticks := disk.Request(job.sector, job.writing);
    served := Served(now, job, lastSector, bufferInit, ticks);
    disk.HandleInterrupt(now + ticks + job.late);
  }
}
