/** The two body storages as objects, and their creation.

    Every method answers as BodyStorage says; what differs is what they hold and what they hand out: a
    memory storage lends its own bytes, a disk storage a copy. */
module BodyBackends {
  import opened Numbers
  import opened DiskCache
  import opened BodyStorage

  class MemoryStorage {
    const data: array<byte>
    const stats: DiskCacheStats
    var i: int  // the position of the bytes.Reader
    var closed: bool

    ghost function View(): Body
      reads this, data
      requires i >= 0
    {
      Body(data[..], i, closed)
    }

    ghost predicate Valid()
      reads this, data
    {
      i >= 0 && Sound(View())
    }

    constructor (data: array<byte>, stats: DiskCacheStats)
      requires data.Length < TWO63
      modifies stats
      ensures Valid() && View() == Body(data[..], 0, false) && this.data == data && this.stats == stats
      ensures stats.Shows() == Buffered(old(stats.Shows()), data.Length)
    {
      this.data, this.stats, i, closed := data, stats, 0, false;
      new;
      stats.IncrementMemoryBuffers(data.Length);
    }

    method Read(n: nat) returns (a: Answer)
      requires Valid()
      modifies this
      ensures Valid() && View() == Next(old(View()), Op.Read(n)) && a == Answered(old(View()), Op.Read(n), Memory)
    {
      if closed {
        return StorageClosed;
      }
      if i >= data.Length {
        return Eof;
      }
      var end := if n > data.Length - i then data.Length else i + n;
      a := Got(data[i..end]);
      i := end;
    }

    method Seek(offset: int, whence: Whence) returns (a: Answer)
      requires Valid() && IsInt64(offset)
      modifies this
      ensures Valid() && View() == Next(old(View()), Op.Seek(offset, whence))
      ensures a == Answered(old(View()), Op.Seek(offset, whence), Memory)
    {
      if closed {
        return StorageClosed;
      }
      var abs := 0;
      match whence {
        case FromStart => abs := offset;
        case FromCurrent => abs := Add64(i, offset);
        case FromEnd => abs := Add64(data.Length, offset);
        case Unknown => return BadSeek;
      }
      if abs < 0 {
        return BadSeek;
      }
      i := abs;
      return Position(abs);
    }

    /** Lends the storage's own bytes: what the caller writes there, later reads see. */
    method Bytes() returns (bytes: array<byte>, a: Answer)
      requires Valid()
      ensures a == Answered(View(), GetBytes, Memory) && (a.All? ==> bytes == data && a == All(bytes[..]))
    {
      if closed {
        return new byte[0], StorageClosed;
      }
      return data, All(data[..]);
    }

    method Size() returns (size: nat)
      requires Valid()
      ensures size == |View().content| && Sized(size) == Answered(View(), Op.Size, Memory)
    {
      return data.Length;
    }

    method Close()
      requires Valid()
      modifies this, stats
      ensures Valid() && View() == Next(old(View()), Op.Close)
      ensures stats.Shows() == if old(closed) then old(stats.Shows()) else Unbuffered(old(stats.Shows()), data.Length)
    {
      if !closed {
        closed := true;
        stats.DecrementMemoryBuffers(data.Length);
      }
    }
  }

  /** An open file of the operating system. */
  class CacheFile {
    var content: seq<byte>
    var pos: int

    constructor ()
      ensures content == [] && pos == 0
    {
      content, pos := [], 0;
    }

    method Write(bytes: seq<byte>)
      requires pos == |content|
      modifies this
      ensures content == old(content) + bytes && pos == |content|
    {
      content := content + bytes;
      pos := |content|;
    }

    /** Nothing at the end; the caller turns that into EOF unless it asked for nothing. */
    method Read(n: nat) returns (chunk: seq<byte>)
      requires pos >= 0
      modifies this
      ensures chunk == Ahead(Body(content, old(pos), false), n)
      ensures content == old(content) && pos == old(pos) + |chunk|
    {
      if pos >= |content| {
        return [];
      }
      var end := if n > |content| - pos then |content| else pos + n;
      chunk := content[pos..end];
      pos := end;
    }

    method Seek(offset: int, whence: Whence) returns (found: int)
      requires pos >= 0
      modifies this
      ensures content == old(content)
      ensures var target := Target(Body(content, old(pos), false), offset, whence);
        if 0 <= target < TWO63 then found == pos == target else found == -1 && pos == old(pos)
    {
      var target := match whence
        case FromStart => offset
        case FromCurrent => pos + offset
        case FromEnd => |content| + offset
        case Unknown => -1;
      if target < 0 || target >= TWO63 {
        return -1;
      }
      pos := target;
      return target;
    }
  }

  class DiskStorage {
    const file: CacheFile
    const stats: DiskCacheStats
    const size: nat
    var closed: bool

    ghost function View(): Body
      reads this, file
      requires file.pos >= 0
    {
      Body(file.content, file.pos, closed)
    }

    ghost predicate Valid()
      reads this, file
    {
      file.pos >= 0 && |file.content| == size && Sound(View())
    }

    constructor (file: CacheFile, stats: DiskCacheStats)
      requires file.pos == 0 && |file.content| < TWO63
      modifies stats
      ensures Valid() && View() == Body(file.content, 0, false) && this.file == file && this.stats == stats
      ensures stats.Shows() == Filed(old(stats.Shows()), |file.content|)
    {
      this.file, this.stats, size, closed := file, stats, |file.content|, false;
      new;
      stats.IncrementDiskFiles(size);
    }

    method Read(n: nat) returns (a: Answer)
      requires Valid()
      modifies this, file
      ensures Valid() && View() == Next(old(View()), Op.Read(n)) && a == Answered(old(View()), Op.Read(n), Disk)
    {
      if closed {
        return StorageClosed;
      }
      var chunk := file.Read(n);
      return if chunk == [] && n > 0 then Eof else Got(chunk);
    }

    method Seek(offset: int, whence: Whence) returns (a: Answer)
      requires Valid() && IsInt64(offset)
      modifies this, file
      ensures Valid() && View() == Next(old(View()), Op.Seek(offset, whence))
      ensures a == Answered(old(View()), Op.Seek(offset, whence), Disk)
    {
      if closed {
        return StorageClosed;
      }
      var found := file.Seek(offset, whence);
      return if found < 0 then BadSeek else Position(found);
    }

    /** Moves the file's position to the start, reads everything, and moves it back. */
    method Bytes() returns (bytes: array<byte>, a: Answer)
      requires Valid()
      modifies file
      ensures Valid() && View() == old(View())
      ensures a == Answered(View(), GetBytes, Disk) && fresh(bytes) && (a.All? ==> a == All(bytes[..]))
    {
      if closed {
        return new byte[0], StorageClosed;
      }
      var currentPos := file.Seek(0, FromCurrent);
      var start := file.Seek(0, FromStart);
      var data := ReadFull();
      var back := file.Seek(currentPos, FromStart);
      bytes := new byte[|data|](k requires 0 <= k < |data| => data[k]);
      return bytes, All(bytes[..]);
    }

    /** Reads until everything is there. */
    method ReadFull() returns (data: seq<byte>)
      requires Valid() && file.pos == 0
      modifies file
      ensures Valid() && file.content == old(file.content) && data == file.content
    {
      data := [];
      while |data| < size
        invariant Valid() && file.content == old(file.content)
        invariant file.pos == |data| <= size && data == file.content[..|data|]
      {
        var chunk := file.Read(size - |data|);
        data := data + chunk;
      }
    }

    method Size() returns (bytes: nat)
      requires Valid()
      ensures bytes == |View().content| && Sized(bytes) == Answered(View(), Op.Size, Disk)
    {
      return size;
    }

    method Close()
      requires Valid()
      modifies this, stats
      ensures Valid() && View() == Next(old(View()), Op.Close)
      ensures stats.Shows() == if old(closed) then old(stats.Shows()) else Unfiled(old(stats.Shows()), size)
    {
      if !closed {
        closed := true;
        stats.DecrementDiskFiles(size);
      }
    }
  }

  // ---------- The counters ----------

  function Buffered(c: Counters, size: nat): Counters {
    c.(buffers := c.buffers + 1, bufferBytes := c.bufferBytes + size)
  }

  function Unbuffered(c: Counters, size: nat): Counters {
    c.(buffers := c.buffers - 1, bufferBytes := c.bufferBytes - size)
  }

  function Filed(c: Counters, size: nat): Counters {
    c.(files := c.files + 1, usage := c.usage + size)
  }

  function Unfiled(c: Counters, size: nat): Counters {
    c.(files := DiskAccounting.AtLeastZero(c.files - 1), usage := DiskAccounting.AtLeastZero(c.usage - size))
  }

  // ---------- Creation ----------

  datatype Settings = Settings(enabled: bool, threshold: int, maxSize: int)

  /** What goes wrong with the cache file, if anything. */
  datatype Fault = NoFault | AtCreate | AtWrite | AtSeek

  datatype Storage = InMemory(memory: MemoryStorage) | OnDisk(disk: DiskStorage)

  datatype Result = Created(storage: Storage) | TooLarge | CreationFailed

  /** A source of bytes that ends or fails after them. */
  datatype Reader = Reader(bytes: seq<byte>, fails: bool)

  datatype Outcome = Taken(bytes: seq<byte>) | Exceeded | Broken

  /** What reading through io.LimitReader(reader, maxBytes + 1) comes to; the sum is a 64-bit one. */
  function ReadLimited(reader: Reader, maxBytes: int): Outcome
    requires IsInt64(maxBytes)
  {
    var limit := Add64(maxBytes, 1);
    var taken := if limit <= 0 then [] else if |reader.bytes| > limit then reader.bytes[..limit] else reader.bytes;
    if reader.fails && |taken| < limit then Broken
    else if |taken| > maxBytes then Exceeded
    else Taken(taken)
  }

  /** A body is refused as too large exactly when it exceeds maxBytes, and otherwise taken whole; only with
      the largest possible maxBytes, whose successor wraps around, is every body taken as empty. */
  lemma TooLargeIffExceeds(reader: Reader, maxBytes: int)
    requires IsInt64(maxBytes) && |reader.bytes| < TWO63
    ensures maxBytes < TWO63 - 1 ==>
      && (ReadLimited(reader, maxBytes) == Exceeded <==> |reader.bytes| > maxBytes)
      && (ReadLimited(reader, maxBytes) == Broken <==> |reader.bytes| <= maxBytes && reader.fails)
      && (ReadLimited(reader, maxBytes) == Taken(reader.bytes) <==> |reader.bytes| <= maxBytes && !reader.fails)
    ensures maxBytes == TWO63 - 1 ==> ReadLimited(reader, maxBytes) == Taken([])
  {
  }

  /** newDiskStorage: a cache file holding these bytes, or null. */
  method NewDiskStorage(bytes: seq<byte>, fault: Fault, stats: DiskCacheStats) returns (d: DiskStorage?)
    requires |bytes| < TWO63
    modifies stats
    ensures d == null <==> !fault.NoFault?
    ensures d == null ==> stats.Shows() == old(stats.Shows())
    ensures d != null ==>
      && fresh(d) && fresh(d.file) && d.stats == stats && d.Valid() && d.View() == Body(bytes, 0, false)
      && stats.Shows() == Filed(old(stats.Shows()), |bytes|)
  {
    if fault.AtCreate? {
      return null;
    }
    var file := new CacheFile();
    if fault.AtWrite? {
      return null;
    }
    file.Write(bytes);
    if fault.AtSeek? {
      return null;
    }
    var found := file.Seek(0, FromStart);
    d := new DiskStorage(file, stats);
  }

  /** In memory or on disk by size and room; a cache file that cannot be had falls back to memory. */
  method CreateBodyStorage(data: array<byte>, settings: Settings, fault: Fault, stats: DiskCacheStats)
    returns (s: Storage)
    requires data.Length < TWO63
    modifies stats
    ensures s.OnDisk? <==>
      && settings.enabled && data.Length >= settings.threshold && fault.NoFault?
      && old(stats.currentDiskUsageBytes) + data.Length <= settings.maxSize
    ensures s.OnDisk? ==> stats.currentDiskUsageBytes <= settings.maxSize
    ensures s.OnDisk? ==>
      && fresh(s.disk) && fresh(s.disk.file) && s.disk.Valid() && s.disk.View() == Body(data[..], 0, false)
      && stats.Shows() == Filed(old(stats.Shows()), data.Length)
    ensures s.InMemory? ==>
      && fresh(s.memory) && s.memory.data == data && s.memory.Valid() && s.memory.View() == Body(data[..], 0, false)
      && stats.Shows() == Buffered(old(stats.Shows()), data.Length)
  {
    if settings.enabled && data.Length >= settings.threshold
       && stats.currentDiskUsageBytes + data.Length <= settings.maxSize {
      var disk := NewDiskStorage(data[..], fault, stats);
      if disk != null {
        return OnDisk(disk);
      }
    }
    var memory := new MemoryStorage(data, stats);
    return InMemory(memory);
  }

  /** Streams to disk when the announced length asks for it, and otherwise reads first; either way the
      outcome of the limited read decides, and the counters change only when a storage is created. */
  method CreateBodyStorageFromReader(reader: Reader, contentLength: int, maxBytes: int, settings: Settings,
                                     fault: Fault, stats: DiskCacheStats) returns (r: Result)
    requires IsInt64(maxBytes) && |reader.bytes| < TWO63
    modifies stats
    ensures var outcome := ReadLimited(reader, maxBytes);
      var streams := settings.enabled && contentLength > 0 && contentLength >= settings.threshold
                     && old(stats.currentDiskUsageBytes) + contentLength <= settings.maxSize;
      && (r.TooLarge? <==> outcome.Exceeded? && !(streams && (fault.AtCreate? || fault.AtWrite?)))
      && (r.Created? <==> outcome.Taken? && !(streams && !fault.NoFault?))
    ensures !r.Created? ==> stats.Shows() == old(stats.Shows())
    ensures r.Created? ==>
      var bytes := ReadLimited(reader, maxBytes).bytes;
      match r.storage
      case OnDisk(disk) =>
        && fresh(disk) && fresh(disk.file) && disk.Valid() && disk.View() == Body(bytes, 0, false)
        && stats.Shows() == Filed(old(stats.Shows()), |bytes|)
      case InMemory(memory) =>
        && fresh(memory) && fresh(memory.data) && memory.Valid() && memory.View() == Body(bytes, 0, false)
        && stats.Shows() == Buffered(old(stats.Shows()), |bytes|)
  {
    if settings.enabled && contentLength > 0 && contentLength >= settings.threshold
       && stats.currentDiskUsageBytes + contentLength <= settings.maxSize {
      r := StreamToDisk(reader, maxBytes, fault, stats);
      return;
    }
    var outcome := ReadLimited(reader, maxBytes);
    if outcome.Broken? {
      return CreationFailed;
    }
    if outcome.Exceeded? {
      return TooLarge;
    }
    var data := new byte[|outcome.bytes|](k requires 0 <= k < |outcome.bytes| => outcome.bytes[k]);
    assert data[..] == outcome.bytes;
    var storage := CreateBodyStorage(data, settings, fault, stats);
    return Created(storage);
  }

  /** newDiskStorageFromReader. */
  method StreamToDisk(reader: Reader, maxBytes: int, fault: Fault, stats: DiskCacheStats) returns (r: Result)
    requires IsInt64(maxBytes) && |reader.bytes| < TWO63
    modifies stats
    ensures var outcome := ReadLimited(reader, maxBytes);
      && (r.TooLarge? <==> outcome.Exceeded? && !fault.AtCreate? && !fault.AtWrite?)
      && (r.Created? <==> outcome.Taken? && fault.NoFault?)
    ensures !r.Created? ==> stats.Shows() == old(stats.Shows())
    ensures r.Created? ==>
      var bytes := ReadLimited(reader, maxBytes).bytes;
      && r.storage.OnDisk? && fresh(r.storage.disk) && fresh(r.storage.disk.file) && r.storage.disk.Valid()
      && r.storage.disk.View() == Body(bytes, 0, false)
      && stats.Shows() == Filed(old(stats.Shows()), |bytes|)
  {
    if fault.AtCreate? {
      return CreationFailed;
    }
    var file := new CacheFile();
    var outcome := ReadLimited(reader, maxBytes);
    if outcome.Broken? || fault.AtWrite? {
      return CreationFailed;
    }
    if outcome.Exceeded? {
      return TooLarge;
    }
    file.Write(outcome.bytes);
    if fault.AtSeek? {
      return CreationFailed;
    }
    var found := file.Seek(0, FromStart);
    var disk := new DiskStorage(file, stats);
    return Created(OnDisk(disk));
  }
}
