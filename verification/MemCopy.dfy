// copy_data of utils.c: whole words while more than four bytes are left, then single bytes.
module MemCopy {
  import opened Layout
  import opened AddressSpaces

  // n bytes moved one at a time, upwards.
  function Bytes(s: seq<Byte>, start: nat, dest: nat, n: nat): (r: seq<Byte>)
    requires start + n <= |s| && dest + n <= |s|
    ensures |r| == |s|
  {
    if n == 0 then s
    else var r := Bytes(s, start, dest, n - 1); r[dest + n - 1 := r[start + n - 1]]
  }

  // One word: four bytes are read, then written.
  function Word(s: seq<Byte>, p: nat, q: nat): (r: seq<Byte>)
    requires p + 4 <= |s| && q + 4 <= |s|
    ensures |r| == |s|
  {
    s[..q] + s[p..p + 4] + s[q + 4..]
  }

  function Words(s: seq<Byte>, start: nat, dest: nat, k: nat): (r: seq<Byte>)
    requires start + 4 * k <= |s| && dest + 4 * k <= |s|
    ensures |r| == |s|
  {
    if k == 0 then s else Word(Words(s, start, dest, k - 1), start + 4 * (k - 1), dest + 4 * (k - 1))
  }

  // The number of words moved: the last four bytes always go one at a time.
  function WordCount(size: int): (k: nat)
    ensures if size > 4 then 1 <= size - 4 * k <= 4 && k >= 1 else k == 0
  {
    if size > 4 then (size - 1) / 4 else 0
  }

  predicate InBounds(length: nat, start: nat, dest: nat, size: int) {
    start <= length && dest <= length && (size > 0 ==> start + size <= length && dest + size <= length)
  }

  // What copy_data leaves in memory.
  function Copied(s: seq<Byte>, start: nat, dest: nat, size: int): (r: seq<Byte>)
    requires InBounds(|s|, start, dest, size)
    ensures |r| == |s|
  {
    var k := WordCount(size);
    Bytes(Words(s, start, dest, k), start + 4 * k, dest + 4 * k, Max(0, size - 4 * k))
  }

  method CopyData(ram: array<Byte>, start: nat, dest: nat, size: int)
    requires InBounds(ram.Length, start, dest, size)
    modifies ram
    ensures ram[..] == Copied(old(ram[..]), start, dest, size)
  {
    var left := CopyWords(ram, start, dest, size);
    CopyTail(ram, start + (size - left), dest + (size - left), left);
  }

  // *q++ = *p++ on DWords
  method MoveWord(ram: array<Byte>, p: nat, q: nat)
    requires p + 4 <= ram.Length && q + 4 <= ram.Length
    modifies ram
    ensures ram[..] == Word(old(ram[..]), p, q)
  {
    ram[q], ram[q + 1], ram[q + 2], ram[q + 3] := ram[p], ram[p + 1], ram[p + 2], ram[p + 3];
  }

  // The first loop of copy_data; returns what is left of size.
  method CopyWords(ram: array<Byte>, start: nat, dest: nat, size: int) returns (left: int)
    requires InBounds(ram.Length, start, dest, size)
    modifies ram
    ensures left == size - 4 * WordCount(size)
    ensures ram[..] == Words(old(ram[..]), start, dest, WordCount(size))
  {
    hide WordCount, Bytes, Words, Word;
    var p, q := start, dest;
    left := size;
    ghost var s := ram[..];
    ghost var k := 0;
    NoWords(s, start, dest);
    while left > 4
      invariant left == size - 4 * k && p == start + 4 * k && q == dest + 4 * k
      invariant k <= WordCount(size)
      invariant ram[..] == Words(s, start, dest, k)
    {
      MoveWord(ram, p, q);
      WordsStep(s, start, dest, k);
      p, q, left, k := p + 4, q + 4, left - 4, k + 1;
    }
    assert k == WordCount(size);
  }

  lemma WordsStep(s: seq<Byte>, start: nat, dest: nat, k: nat)
    requires start + 4 * k + 4 <= |s| && dest + 4 * k + 4 <= |s|
    ensures Words(s, start, dest, k + 1) == Word(Words(s, start, dest, k), start + 4 * k, dest + 4 * k)
  {
  }

  // Its second loop.
  method CopyTail(ram: array<Byte>, start: nat, dest: nat, size: int)
    requires InBounds(ram.Length, start, dest, size)
    modifies ram
    ensures ram[..] == Bytes(old(ram[..]), start, dest, Max(0, size))
  {
    var p, q, left := start, dest, size;
    ghost var n := 0;
    while left > 0
      invariant left == size - n && p == start + n && q == dest + n && n <= Max(0, size)
      invariant ram[..] == Bytes(old(ram[..]), start, dest, n)
    {
      ram[q] := ram[p];
      p, q, left, n := p + 1, q + 1, left - 1, n + 1;
    }
  }

  lemma {:induction false} BytesSplit(s: seq<Byte>, start: nat, dest: nat, a: nat, b: nat)
    requires start + a + b <= |s| && dest + a + b <= |s|
    ensures Bytes(s, start, dest, a + b) == Bytes(Bytes(s, start, dest, a), start + a, dest + a, b)
  {
    if b > 0 { BytesSplit(s, start, dest, a, b - 1); }
  }

  // A word move is four byte moves unless the destination lies 1 to 3 bytes above the source.
  lemma WordIsFourBytes(s: seq<Byte>, p: nat, q: nat)
    requires p + 4 <= |s| && q + 4 <= |s| && !(p < q < p + 4)
    ensures Word(s, p, q) == Bytes(s, p, q, 4)
  {
    var r1 := s[q := s[p]];
    var r2 := r1[q + 1 := r1[p + 1]];
    var r3 := r2[q + 2 := r2[p + 2]];
    assert Bytes(s, p, q, 1) == r1;
    assert Bytes(s, p, q, 2) == r2;
    assert Bytes(s, p, q, 3) == r3;
    assert Bytes(s, p, q, 4) == r3[q + 3 := r3[p + 3]];
  }

  lemma {:induction false} WordsAreBytes(s: seq<Byte>, start: nat, dest: nat, k: nat)
    requires start + 4 * k <= |s| && dest + 4 * k <= |s| && !(start < dest < start + 4)
    ensures Words(s, start, dest, k) == Bytes(s, start, dest, 4 * k)
  {
    hide Bytes, Word;
    if k == 0 {
      NoWords(s, start, dest);
    } else {
      WordsAreBytes(s, start, dest, k - 1);
      BytesSplit(s, start, dest, 4 * (k - 1), 4);
      WordIsFourBytes(Bytes(s, start, dest, 4 * (k - 1)), start + 4 * (k - 1), dest + 4 * (k - 1));
    }
  }

  lemma NoWords(s: seq<Byte>, start: nat, dest: nat)
    requires start <= |s| && dest <= |s|
    ensures Words(s, start, dest, 0) == s == Bytes(s, start, dest, 0)
  {
  }

  // So copy_data is a byte copy, overlapping or not, unless it moves words and the
  // destination lies 1 to 3 bytes above the source.
  lemma CopyDataIsByteCopy(s: seq<Byte>, start: nat, dest: nat, size: nat)
    requires InBounds(|s|, start, dest, size)
    requires size <= 4 || !(start < dest < start + 4)
    ensures Copied(s, start, dest, size) == Bytes(s, start, dest, size)
  {
    hide WordCount, Words, Bytes, Copied;
    var k := WordCount(size);
    var tail := size - 4 * k;
    calc {
      Copied(s, start, dest, size);
      { CopiedIs(s, start, dest, size, k, tail); }
      Bytes(Words(s, start, dest, k), start + 4 * k, dest + 4 * k, tail);
      { WordsThenBytes(s, start, dest, k, tail); }
      Bytes(s, start, dest, 4 * k + tail);
      Bytes(s, start, dest, size);
    }
  }

  lemma CopiedIs(s: seq<Byte>, start: nat, dest: nat, size: nat, k: nat, tail: nat)
    requires InBounds(|s|, start, dest, size) && k == WordCount(size) && tail == size - 4 * k
    ensures Copied(s, start, dest, size) == Bytes(Words(s, start, dest, k), start + 4 * k, dest + 4 * k, tail)
  {
  }

  lemma WordsThenBytes(s: seq<Byte>, start: nat, dest: nat, k: nat, tail: nat)
    requires start + 4 * k + tail <= |s| && dest + 4 * k + tail <= |s|
    requires k == 0 || !(start < dest < start + 4)
    ensures Bytes(Words(s, start, dest, k), start + 4 * k, dest + 4 * k, tail) == Bytes(s, start, dest, 4 * k + tail)
  {
    if k > 0 {
      WordsAreBytes(s, start, dest, k);
      BytesSplit(s, start, dest, 4 * k, tail);
    }
  }

  lemma {:induction false} BytesBelow(s: seq<Byte>, start: nat, dest: nat, n: nat, i: nat)
    requires start + n <= |s| && dest + n <= |s| && i < dest
    ensures Bytes(s, start, dest, n)[i] == s[i]
  {
    if n > 0 { BytesBelow(s, start, dest, n - 1, i); }
  }

  lemma {:induction false} FirstWordStays(s: seq<Byte>, start: nat, dest: nat, k: nat, i: nat)
    requires 1 <= k && start + 4 * k <= |s| && dest + 4 * k <= |s| && i < dest + 4
    ensures Words(s, start, dest, k)[i] == Word(s, start, dest)[i]
  {
    if k > 1 { FirstWordStays(s, start, dest, k - 1, i); }
  }

  // In that case it is none: if source and destination start with different bytes, the byte
  // copy repeats the first byte where copy_data does not.
  lemma OverlapDiffers(s: seq<Byte>, start: nat, dest: nat, size: nat)
    requires InBounds(|s|, start, dest, size) && size > 4 && start < dest < start + 4
    requires s[start] != s[dest]
    ensures Copied(s, start, dest, size) != Bytes(s, start, dest, size)
  {
    hide Bytes, Words;
    var d := dest - start;
    var k := WordCount(size);
    FirstWordStays(s, start, dest, k, dest + d);
    BytesBelow(Words(s, start, dest, k), start + 4 * k, dest + 4 * k, size - 4 * k, dest + d);
    assert Copied(s, start, dest, size)[dest + d] == s[start + d];
    RepeatedByte(s, start, dest, size);
  }

  // So copy_data is a byte copy for all contents of memory exactly when it moves no words or the
  // destination does not lie 1 to 3 bytes above the source.
  lemma ByteCopyExactly(length: nat, start: nat, dest: nat, size: nat)
    requires InBounds(length, start, dest, size)
    ensures (forall s: seq<Byte> :: |s| == length ==> Copied(s, start, dest, size) == Bytes(s, start, dest, size))
            <==> size <= 4 || !(start < dest < start + 4)
  {
    hide Copied, Bytes;
    if size <= 4 || !(start < dest < start + 4) {
      forall s: seq<Byte> | |s| == length ensures Copied(s, start, dest, size) == Bytes(s, start, dest, size) {
        CopyDataIsByteCopy(s, start, dest, size);
      }
    } else {
      var s: seq<Byte> := seq(length, i => if i == start then 1 else 0);
      OverlapDiffers(s, start, dest, size);
    }
  }

  lemma RepeatedByte(s: seq<Byte>, start: nat, dest: nat, size: nat)
    requires InBounds(|s|, start, dest, size) && start < dest && 2 * dest - start < dest + size
    ensures Bytes(s, start, dest, size)[2 * dest - start] == s[start]
  {
    var d := dest - start;
    ByteArrives(s, start, dest, size, d);
    ByteArrives(s, start, dest, d, 0);
  }

  // The byte written in turn i stays.
  lemma ByteArrives(s: seq<Byte>, start: nat, dest: nat, n: nat, i: nat)
    requires start + n <= |s| && dest + n <= |s| && i < n
    ensures Bytes(s, start, dest, n)[dest + i] == Bytes(s, start, dest, i)[start + i]
  {
    BytesSplit(s, start, dest, i + 1, n - i - 1);
    BytesBelow(Bytes(s, start, dest, i + 1), start + i + 1, dest + i + 1, n - i - 1, dest + i);
  }

  // Bytes that do not run into their own destination arrive as they were.
  lemma {:induction false} BytesMoved(s: seq<Byte>, start: nat, dest: nat, n: nat)
    requires start + n <= |s| && dest + n <= |s| && (dest <= start || start + n <= dest)
    ensures Bytes(s, start, dest, n) == s[..dest] + s[start..start + n] + s[dest + n..]
  {
    if n > 0 {
      BytesMoved(s, start, dest, n - 1);
      var r := Bytes(s, start, dest, n - 1);
      assert r[start + n - 1] == s[start + n - 1];
      assert s[start..start + n] == s[start..start + n - 1] + [s[start + n - 1]];
    }
  }
}
