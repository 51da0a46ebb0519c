/** The sector store that filesys/synchdisk.cc offers to one thread: whole-sector reads and writes
    that are complete when the call returns. */
module SectorStore {
  import opened Words

  const SECTOR_SIZE: nat := 128
  const NUM_SECTORS: nat := 1024

  type Sectors = seq<seq<Byte>>

  predicate Formatted(d: Sectors) {
    |d| == NUM_SECTORS && forall s :: 0 <= s < NUM_SECTORS ==> |d[s]| == SECTOR_SIZE
  }

  class SynchDisk {
    var sectors: Sectors

    ghost predicate Valid()
      reads this
    {
      Formatted(sectors)
    }

    method ReadSector(sectorNumber: int, data: array<Byte>, at: nat)
      requires Valid() && 0 <= sectorNumber < NUM_SECTORS
      requires at + SECTOR_SIZE <= data.Length
      modifies data
      ensures data[..] == old(data[..at]) + sectors[sectorNumber] + old(data[at + SECTOR_SIZE..])
    {
      var sector := sectors[sectorNumber];
      ghost var before := data[..];
      for i := 0 to SECTOR_SIZE
        invariant data[..] == before[..at] + sector[..i] + before[at + i..]
      {
        CopyStep(before, at, sector, i);
        data[at + i] := sector[i];
      }
    }

    method WriteSector(sectorNumber: int, data: array<Byte>, at: nat)
      requires Valid() && 0 <= sectorNumber < NUM_SECTORS
      requires at + SECTOR_SIZE <= data.Length
      modifies this
      ensures Valid()
      ensures sectors == old(sectors)[sectorNumber := data[at..at + SECTOR_SIZE]]
    {
      sectors := sectors[sectorNumber := data[at..at + SECTOR_SIZE]];
    }
  }
}
