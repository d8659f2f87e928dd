/** Disassembling a buffer: all at once into a growing array of records, and one instruction at a time. */
module Disasm {
  import opened Words

  /** Addresses are 64 bits wide. */
  const ADDRESSES: nat := 0x1_0000_0000_0000_0000

  /** The size of an instruction in the buffer, and what the decoder and the printer say about it. */
  datatype Decoded<T> = Decoded(size: nat, content: T)

  /** `Raw` is the record that stands for skipped bytes. */
  datatype Content<T> = Blank | Insn(content: T) | Raw(bytes: seq<Byte>)

  /** `cs_insn`, but for its pointer to details. */
  datatype Record<T> = Record(address: nat, size: nat, content: Content<T>)

  /** Each record starts where the one before it ends, the first at this address. */
  predicate Follows<T>(s: seq<Record<T>>, address: nat) {
    s == [] || (s[0].address == address && Follows(s[1..], (address + s[0].size) % ADDRESSES))
  }

  lemma FollowsCons<T>(r: Record<T>, s: seq<Record<T>>, address: nat)
    requires r.address == address && Follows(s, (address + r.size) % ADDRESSES)
    ensures Follows([r] + s, address)
  {
    assert ([r] + s)[1..] == s;
  }

  lemma {:induction false} FollowsAt<T>(s: seq<Record<T>>, address: nat, i: nat)
    requires Follows(s, address) && i < |s|
    ensures s[i].address == if i == 0 then address else (s[i - 1].address + s[i - 1].size) % ADDRESSES
  {
    if i > 0 {
      FollowsAt(s[1..], (address + s[0].size) % ADDRESSES, i - 1);
    }
  }

  /** The number of bytes of the first i records. */
  function Taken<T>(s: seq<Record<T>>, i: nat): nat
    requires i <= |s|
  {
    if i == 0 then 0 else s[0].size + Taken(s[1..], i - 1)
  }

  lemma TakenCons<T>(r: Record<T>, s: seq<Record<T>>, i: nat)
    requires 0 < i <= |s| + 1
    ensures Taken([r] + s, i) == r.size + Taken(s, i - 1)
  {
    assert ([r] + s)[1..] == s;
  }

  /** An address after so many bytes; one that is never moved is not reduced either. */
  function Moved(address: nat, bytes: nat): nat { if bytes == 0 then address else (address + bytes) % ADDRESSES }

  lemma MovedOn(address: nat, a: nat, b: nat)
    requires a > 0
    ensures Moved((address + a) % ADDRESSES, b) == Moved(address, a + b)
  {
  }

  /** The size of the cache after the next enlargement, a 32-bit number. */
  function NextCache(cacheSize: nat): (n: nat)
    ensures 8 * cacheSize < UINT ==> 5 * n <= 8 * cacheSize < 5 * n + 5
  {
    (cacheSize * 8 % UINT) / 5
  }

  /** A cache of this size, and those after it, have room for n records; the wrapped product never leaves an empty one. */
  predicate Roomy(n: nat, cacheSize: nat)
    decreases n
  {
    n <= cacheSize || (cacheSize > 0 && NextCache(cacheSize) > 0 && Roomy(n - cacheSize, NextCache(cacheSize)))
  }

  lemma RoomyNext(n: nat, cacheSize: nat)
    requires Roomy(n, cacheSize) && n >= cacheSize
    ensures Roomy(n - cacheSize, NextCache(cacheSize)) == true && (NextCache(cacheSize) == 0 ==> n == cacheSize)
  {
  }

  /** Below 2^29 records nothing wraps around. */
  lemma {:induction false} SmallIsRoomy(n: nat, cacheSize: nat)
    requires n < UINT / 8 && cacheSize > 0
    ensures Roomy(n, cacheSize)
    decreases n
  {
    if n > cacheSize {
      assert NextCache(cacheSize) == cacheSize * 8 / 5 >= 1;
      SmallIsRoomy(n - cacheSize, NextCache(cacheSize));
    }
  }

  /**
   * A handle: the decoder, whether broken instructions are skipped, by how many bytes, and the callback that says how
   * many if there is one. The callback gets the whole code and a position in it.
   */
  datatype Handle<!T> = Handle(disasm: (seq<Byte>, nat) -> Option<Decoded<T>>, skipdata: bool, skipSize: nat,
                               callback: Option<(seq<Byte>, nat) -> nat>)
  {
    /** A decoded or skipped piece is not empty, not longer than the code, and fits the 24 bytes of a record. */
    ghost predicate Valid() {
      && 0 < skipSize <= 24
      && (forall code: seq<Byte>, address: nat :: disasm(code, address).Some? ==>
            0 < disasm(code, address).value.size <= |code| && disasm(code, address).value.size <= 24)
      && (callback.Some? ==> forall code: seq<Byte>, k: nat :: callback.value(code, k) <= 24)
    }

    /** The callback only looks at what is left of the code. */
    ghost predicate Relative() {
      callback.Some? ==> forall code: seq<Byte>, k: nat :: k <= |code| ==> callback.value(code, k) == callback.value(code[k..], 0)
    }

    /** The number of bytes to skip at position k, none if the buffer ends here for the caller. */
    function Skipped(code: seq<Byte>, k: nat): Option<nat>
      requires k <= |code|
    {
      if !skipdata || skipSize > |code| - k then None
      else if callback.None? then Some(skipSize)
      else if callback.value(code, k) > |code| - k || callback.value(code, k) == 0 then None
      else Some(callback.value(code, k))
    }

    /** The record at position k of the code, and how many bytes it takes. */
    function At(code: seq<Byte>, k: nat, address: nat): Option<(Record<T>, nat)>
      requires k <= |code|
    {
      match disasm(code[k..], address)
      case Some(d) => Some((Record(address, d.size, Insn(d.content)), d.size))
      case None =>
        match Skipped(code, k)
        case None => None
        case Some(n) => Some((Record(address, n, Raw(code[k..][..n])), n))
    }

    lemma AtAdvances(code: seq<Byte>, k: nat, address: nat)
      requires Valid() && k <= |code| && At(code, k, address).Some?
      ensures 0 < At(code, k, address).value.1 <= |code| - k
    {
    }

    /**
     * What the record of position k must be: what the decoder says of the code from there on, or else, if bytes are
     * skipped, as many bytes as the callback answers, or the default number without one. The callback is asked about
     * position `at` of the code `asked`.
     */
    ghost predicate Shows(code: seq<Byte>, k: nat, asked: seq<Byte>, at: nat, r: Record<T>)
      requires k <= |code|
    {
      match disasm(code[k..], r.address)
      case Some(d) => r.size == d.size && r.content == Insn(d.content)
      case None =>
        && skipdata && skipSize <= |code| - k && 0 < r.size <= |code| - k
        && r.size == (if callback.Some? then callback.value(asked, at) else skipSize)
        && r.content == Raw(code[k..k + r.size])
    }

    /** There is no record: nothing can be decoded, and nothing may be skipped. */
    predicate Stops(code: seq<Byte>, k: nat, address: nat, asked: seq<Byte>, at: nat)
      requires k <= |code|
    {
      && disasm(code[k..], address).None?
      && (|| !skipdata || skipSize > |code| - k
          || (callback.Some? && (callback.value(asked, at) == 0 || callback.value(asked, at) > |code| - k)))
    }

    lemma AtShows(code: seq<Byte>, k: nat, address: nat)
      requires Valid() && k <= |code|
      ensures At(code, k, address).None? <==> Stops(code, k, address, code, k)
      ensures At(code, k, address).Some? ==>
                var (record, size) := At(code, k, address).value;
                record.address == address && record.size == size && Shows(code, k, code, k, record)
    {
      if At(code, k, address).Some? {
        var n := At(code, k, address).value.1;
        assert code[k..][..n] == code[k..k + n];
      }
    }

    /** The callback, if it is asked at all, says the same of position k of the code as of the start of its rest. */
    predicate AgreesAt(code: seq<Byte>, k: nat, address: nat)
      requires k <= |code|
    {
      disasm(code[k..], address).None? ==> Skipped(code, k) == Skipped(code[k..], 0)
    }

    /** Exactly then only the rest of the code matters. */
    lemma AtRest(code: seq<Byte>, k: nat, address: nat)
      requires Valid() && k <= |code|
      ensures At(code, k, address) == At(code[k..], 0, address) <==> AgreesAt(code, k, address)
    {
      assert code[k..][0..] == code[k..];
    }

    /** The records of the first n rounds from position k on, until one fails. */
    ghost function Sweep(code: seq<Byte>, k: nat, address: nat, n: nat): seq<Record<T>>
      requires Valid() && k <= |code|
      decreases n
    {
      if n == 0 || At(code, k, address).None? then []
      else
        var (record, size) := At(code, k, address).value;
        AtAdvances(code, k, address);
        [record] + Sweep(code, k + size, (address + size) % ADDRESSES, n - 1)
    }

    lemma SweepCons(code: seq<Byte>, k: nat, address: nat, n: nat, record: Record<T>, size: nat)
      requires Valid() && k <= |code| && n > 0 && At(code, k, address) == Some((record, size))
      ensures k + size <= |code| && size > 0
      ensures Sweep(code, k, address, n) == [record] + Sweep(code, k + size, (address + size) % ADDRESSES, n - 1)
    {
      AtAdvances(code, k, address);
    }

    /** The records of the first n calls of the iterator, until one fails. */
    ghost function Iterated(code: seq<Byte>, address: nat, n: nat): seq<Record<T>>
      requires Valid()
      decreases n
    {
      if n == 0 || At(code, 0, address).None? then []
      else
        var (record, size) := At(code, 0, address).value;
        AtAdvances(code, 0, address);
        [record] + Iterated(code[size..], (address + size) % ADDRESSES, n - 1)
    }

    lemma {:induction false} SweepFollows(code: seq<Byte>, k: nat, address: nat, n: nat)
      requires Valid() && k <= |code|
      ensures Follows(Sweep(code, k, address, n), address)
      decreases n
    {
      if n > 0 && At(code, k, address).Some? {
        var (record, size) := At(code, k, address).value;
        SweepCons(code, k, address, n, record, size);
        SweepFollows(code, k + size, (address + size) % ADDRESSES, n - 1);
        FollowsCons(record, Sweep(code, k + size, (address + size) % ADDRESSES, n - 1), address);
      }
    }

    lemma {:induction false} IteratedFollows(code: seq<Byte>, address: nat, n: nat)
      requires Valid()
      ensures Follows(Iterated(code, address, n), address)
      decreases n
    {
      if n > 0 && At(code, 0, address).Some? {
        var (record, size) := At(code, 0, address).value;
        AtAdvances(code, 0, address);
        IteratedFollows(code[size..], (address + size) % ADDRESSES, n - 1);
        FollowsCons(record, Iterated(code[size..], (address + size) % ADDRESSES, n - 1), address);
      }
    }

    /** The records of the iterator, and those of a sweep, follow one another without a gap. */
    lemma Contiguous(code: seq<Byte>, k: nat, address: nat, n: nat, i: nat)
      requires Valid() && k <= |code|
      ensures i < |Iterated(code, address, n)| ==>
                var s := Iterated(code, address, n);
                s[i].address == if i == 0 then address else (s[i - 1].address + s[i - 1].size) % ADDRESSES
      ensures i < |Sweep(code, k, address, n)| ==>
                var s := Sweep(code, k, address, n);
                s[i].address == if i == 0 then address else (s[i - 1].address + s[i - 1].size) % ADDRESSES
    {
      IteratedFollows(code, address, n);
      SweepFollows(code, k, address, n);
      if i < |Iterated(code, address, n)| {
        FollowsAt(Iterated(code, address, n), address, i);
      }
      if i < |Sweep(code, k, address, n)| {
        FollowsAt(Sweep(code, k, address, n), address, i);
      }
    }

    // ----- what the records are -----

    /** Every record of the sequence starts where those before it end, in the code and in the addresses. */
    ghost predicate Listing(s: seq<Record<T>>, code: seq<Byte>, k: nat, address: nat, whole: bool)
      requires k <= |code|
    {
      forall i: nat :: i < |s| ==> Listed(s, code, k, address, whole, i)
    }

    /** Record i; the callback is asked about its place in the whole code, or about the start of the rest. */
    ghost predicate Listed(s: seq<Record<T>>, code: seq<Byte>, k: nat, address: nat, whole: bool, i: nat)
      requires k <= |code|
    {
      && i < |s| && k + Taken(s, i) <= |code| && s[i].address == Moved(address, Taken(s, i))
      && var p := k + Taken(s, i);
         Shows(code, p, if whole then code else code[p..], if whole then p else 0, s[i])
    }

    /** Behind the sequence there is no further record. */
    ghost predicate EndsBehind(s: seq<Record<T>>, code: seq<Byte>, k: nat, address: nat, whole: bool)
      requires k <= |code|
    {
      && k + Taken(s, |s|) <= |code|
      && var p := k + Taken(s, |s|);
         Stops(code, p, Moved(address, Taken(s, |s|)), if whole then code else code[p..], if whole then p else 0)
    }

    lemma ListingCons(record: Record<T>, rest: seq<Record<T>>, code: seq<Byte>, k: nat, address: nat, whole: bool)
      requires k + record.size <= |code| && record.address == address && record.size > 0
      requires Shows(code, k, if whole then code else code[k..], if whole then k else 0, record)
      requires Listing(rest, code, k + record.size, (address + record.size) % ADDRESSES, whole)
      ensures Listing([record] + rest, code, k, address, whole)
      ensures EndsBehind(rest, code, k + record.size, (address + record.size) % ADDRESSES, whole)
              ==> EndsBehind([record] + rest, code, k, address, whole)
    {
      var s := [record] + rest;
      forall i: nat | i < |s| ensures Listed(s, code, k, address, whole, i) {
        if i > 0 {
          assert Listed(rest, code, k + record.size, (address + record.size) % ADDRESSES, whole, i - 1);
          TakenCons(record, rest, i);
          MovedOn(address, record.size, Taken(rest, i - 1));
        }
      }
      TakenCons(record, rest, |s|);
      MovedOn(address, record.size, Taken(rest, |rest|));
    }

    /** All the records there are, or the first n of them. */
    ghost predicate Lists(s: seq<Record<T>>, code: seq<Byte>, k: nat, address: nat, whole: bool, n: nat)
      requires k <= |code|
    {
      && Listing(s, code, k, address, whole) && |s| <= n
      && (|s| < n ==> EndsBehind(s, code, k, address, whole))
    }

    lemma ListsCons(record: Record<T>, rest: seq<Record<T>>, code: seq<Byte>, k: nat, address: nat, whole: bool, n: nat, next: nat)
      requires k + record.size <= |code| && record.address == address && record.size > 0 && n > 0
      requires next == (address + record.size) % ADDRESSES
      requires Shows(code, k, if whole then code else code[k..], if whole then k else 0, record)
      requires Lists(rest, code, k + record.size, next, whole, n - 1) == true
      ensures Lists([record] + rest, code, k, address, whole, n) == true
    {
      ListingCons(record, rest, code, k, address, whole);
    }

    lemma ListsNone(code: seq<Byte>, k: nat, address: nat, whole: bool, n: nat)
      requires k <= |code|
      requires n == 0 || Stops(code, k, address, if whole then code else code[k..], if whole then k else 0)
      ensures Lists([], code, k, address, whole, n) == true
    {
    }

    /** The records of `cs_disasm` are the first n that there are. */
    lemma {:induction false} SweepLists(code: seq<Byte>, k: nat, address: nat, n: nat)
      requires Valid() == true && k <= |code|
      ensures Lists(Sweep(code, k, address, n), code, k, address, true, n) == true
      decreases n
    {
      AtShows(code, k, address);
      if n == 0 || At(code, k, address).None? {
        ListsNone(code, k, address, true, n);
      } else {
        var (record, size) := At(code, k, address).value;
        SweepCons(code, k, address, n, record, size);
        SweepLists(code, k + size, (address + size) % ADDRESSES, n - 1);
        ListsCons(record, Sweep(code, k + size, (address + size) % ADDRESSES, n - 1), code, k, address, true, n,
                  (address + size) % ADDRESSES);
      }
    }

    /** So are those of the iterator, with the callback asked about the rest. */
    lemma {:induction false} IteratedLists(code: seq<Byte>, k: nat, address: nat, n: nat)
      requires Valid() == true && k <= |code|
      ensures Lists(Iterated(code[k..], address, n), code, k, address, false, n) == true
      decreases n
    {
      RestShows(code, k, address);
      if n == 0 || At(code[k..], 0, address).None? {
        ListsNone(code, k, address, false, n);
      } else {
        var (record, size) := At(code[k..], 0, address).value;
        IteratedCons(code, k, address, n, record, size);
        IteratedLists(code, k + size, (address + size) % ADDRESSES, n - 1);
        ListsCons(record, Iterated(code[k + size..], (address + size) % ADDRESSES, n - 1), code, k, address, false, n,
                  (address + size) % ADDRESSES);
      }
    }

    lemma RestShows(code: seq<Byte>, k: nat, address: nat)
      requires Valid() && k <= |code|
      ensures At(code[k..], 0, address).None? <==> Stops(code, k, address, code[k..], 0)
      ensures At(code[k..], 0, address).Some? ==>
                var (record, size) := At(code[k..], 0, address).value;
                && record.address == address && record.size == size && 0 < size <= |code| - k
                && Shows(code, k, code[k..], 0, record)
    {
      AtShows(code[k..], 0, address);
      assert code[k..][0..] == code[k..];
      if At(code[k..], 0, address).Some? {
        AtAdvances(code[k..], 0, address);
        ShowsRest(code, k, At(code[k..], 0, address).value.0);
      }
    }

    lemma ShowsRest(code: seq<Byte>, k: nat, record: Record<T>)
      requires k <= |code| && Shows(code[k..], 0, code[k..], 0, record)
      ensures Shows(code, k, code[k..], 0, record)
    {
      assert code[k..][0..] == code[k..];
      if disasm(code[k..], record.address).None? {
        assert code[k..][0..record.size] == code[k..k + record.size];
      }
    }

    // ----- when the two agree -----
    // ----- when the two agree -----

    /** The callback agrees at each of the positions that n rounds from k on come to. */
    ghost predicate Agreed(code: seq<Byte>, k: nat, address: nat, n: nat)
      requires Valid() && k <= |code|
      decreases n
    {
      if n == 0 || !AgreesAt(code, k, address) || At(code, k, address).None? then n == 0 || AgreesAt(code, k, address)
      else
        AtAdvances(code, k, address);
        var size := At(code, k, address).value.1;
        Agreed(code, k + size, (address + size) % ADDRESSES, n - 1)
    }

    /** Disassembling all at once and one at a time give the same records exactly if the callback agrees on the way. */
    lemma {:induction false} SweepIsIterated(code: seq<Byte>, k: nat, address: nat, n: nat)
      requires Valid() == true && k <= |code|
      ensures Sweep(code, k, address, n) == Iterated(code[k..], address, n) <==> Agreed(code, k, address, n)
      decreases n
    {
      if n == 0 || !AgreesAt(code, k, address) || At(code, k, address).None? {
        SweepEndsThere(code, k, address, n);
      } else {
        var (record, size) := At(code, k, address).value;
        SweepGoesOn(code, k, address, n, record, size);
        SweepIsIterated(code, k + size, (address + size) % ADDRESSES, n - 1);
      }
    }

    lemma SweepEndsThere(code: seq<Byte>, k: nat, address: nat, n: nat)
      requires Valid() && k <= |code| && (n == 0 || !AgreesAt(code, k, address) || At(code, k, address).None?)
      ensures Sweep(code, k, address, n) == Iterated(code[k..], address, n) <==> Agreed(code, k, address, n)
    {
      AtRest(code, k, address);
      if n > 0 && !AgreesAt(code, k, address) {
        HeadsDiffer(code, k, address, n);
      }
    }

    lemma SweepGoesOn(code: seq<Byte>, k: nat, address: nat, n: nat, record: Record<T>, size: nat)
      requires Valid() == true && k <= |code| && n > 0 && AgreesAt(code, k, address)
      requires At(code, k, address) == Some((record, size))
      ensures k + size <= |code|
      ensures Agreed(code, k, address, n) == Agreed(code, k + size, (address + size) % ADDRESSES, n - 1)
      ensures Sweep(code, k, address, n) == Iterated(code[k..], address, n) <==>
              Sweep(code, k + size, (address + size) % ADDRESSES, n - 1)
              == Iterated(code[k + size..], (address + size) % ADDRESSES, n - 1)
    {
      AgreedCons(code, k, address, n, record, size, (address + size) % ADDRESSES);
      SequencesCons(code, k, address, n, record, size, (address + size) % ADDRESSES);
    }

    lemma AgreedCons(code: seq<Byte>, k: nat, address: nat, n: nat, record: Record<T>, size: nat, next: nat)
      requires Valid() && k <= |code| && n > 0 && AgreesAt(code, k, address) && next == (address + size) % ADDRESSES
      requires At(code, k, address) == Some((record, size))
      ensures k + size <= |code| && Agreed(code, k, address, n) == Agreed(code, k + size, next, n - 1)
    {
      AtAdvances(code, k, address);
    }

    lemma SequencesCons(code: seq<Byte>, k: nat, address: nat, n: nat, record: Record<T>, size: nat, next: nat)
      requires Valid() == true && k <= |code| && n > 0 && AgreesAt(code, k, address) && next == (address + size) % ADDRESSES
      requires At(code, k, address) == Some((record, size)) && k + size <= |code|
      ensures Sweep(code, k, address, n) == Iterated(code[k..], address, n) <==>
              Sweep(code, k + size, next, n - 1) == Iterated(code[k + size..], next, n - 1)
    {
      AtRest(code, k, address);
      SweepCons(code, k, address, n, record, size);
      IteratedCons(code, k, address, n, record, size);
      SameTails(record, Sweep(code, k + size, next, n - 1), Iterated(code[k + size..], next, n - 1));
    }

    lemma IteratedCons(code: seq<Byte>, k: nat, address: nat, n: nat, record: Record<T>, size: nat)
      requires Valid() && k + size <= |code| && n > 0 && At(code[k..], 0, address) == Some((record, size))
      ensures Iterated(code[k..], address, n) == [record] + Iterated(code[k + size..], (address + size) % ADDRESSES, n - 1)
    {
      assert code[k..][size..] == code[k + size..];
    }

    lemma SameTails(x: Record<T>, s: seq<Record<T>>, t: seq<Record<T>>)
      ensures [x] + s == [x] + t <==> s == t
    {
      assert ([x] + s)[1..] == s && ([x] + t)[1..] == t;
    }

    /** Where the callback disagrees, the next record is another one, or there is none for one of the two. */
    lemma HeadsDiffer(code: seq<Byte>, k: nat, address: nat, n: nat)
      requires Valid() && k <= |code| && n > 0 && !AgreesAt(code, k, address)
      ensures Sweep(code, k, address, n) != Iterated(code[k..], address, n)
    {
      var a, b := At(code, k, address), At(code[k..], 0, address);
      assert code[k..][0..] == code[k..];
      assert a.Some? ==> Sweep(code, k, address, n)[0] == a.value.0;
      assert b.Some? ==> Iterated(code[k..], address, n)[0] == b.value.0;
    }

    /** A callback that only looks at what is left of the code agrees everywhere. */
    lemma {:induction false} RelativeAgrees(code: seq<Byte>, k: nat, address: nat, n: nat)
      requires Valid() && Relative() && k <= |code|
      ensures Agreed(code, k, address, n)
      decreases n
    {
      assert code[k..][0..] == code[k..];
      if n > 0 && At(code, k, address).Some? {
        AtAdvances(code, k, address);
        var size := At(code, k, address).value.1;
        RelativeAgrees(code, k + size, (address + size) % ADDRESSES, n - 1);
      }
    }

    // ----- one at a time -----

    /** `cs_disasm_iter`: on success the code and the address move past the instruction. */
    method DisasmIter(code: seq<Byte>, address: nat) returns (ok: bool, insn: Record<T>, code': seq<Byte>, address': nat)
      requires Valid()
      ensures ok == At(code, 0, address).Some?
      ensures ok ==> var (record, size) := At(code, 0, address).value;
                     insn == record && size <= |code| && code' == code[size..] && address' == (address + size) % ADDRESSES
      ensures !ok ==> code' == code && address' == address
      ensures ok ==> Lists([insn], code, 0, address, false, 1) == true
      ensures !ok ==> Stops(code, 0, address, code, 0) == true
    {
      AtShows(code, 0, address);
      code', address' := code, address;
      insn := Record(address, 0, Blank);
      assert code[0..] == code;
      match disasm(code, address)
      case Some(d) =>
        insn := Record(address, d.size, Insn(d.content));
        code', address' := code[d.size..], (address + d.size) % ADDRESSES;
        ok := true;
      case None =>
        if !skipdata || skipSize > |code| {
          return false, insn, code', address';
        }
        var bytes := skipSize;
        if callback.Some? {
          bytes := callback.value(code, 0);
          if bytes > |code| || bytes == 0 {
            return false, insn, code', address';
          }
        }
        insn := Record(address, bytes, Raw(code[..bytes]));
        code', address' := code[bytes..], (address + bytes) % ADDRESSES;
        ok := true;
    }

    /** What the iterator will still yield. */
    ghost function ToCome(ok: bool, code: seq<Byte>, address: nat, n: nat): seq<Record<T>>
      requires Valid()
    {
      if ok then Iterated(code, address, n) else []
    }

    lemma OneCall(was: seq<Record<T>>, code: seq<Byte>, address: nat, n: nat, record: Record<T>, size: nat)
      requires Valid() && n > 0 && At(code, 0, address) == Some((record, size)) && size <= |code|
      ensures was + Iterated(code, address, n)
           == was + [record] + Iterated(code[size..], (address + size) % ADDRESSES, n - 1)
    {
    }

    /** A client of the iterator: it yields exactly `Iterated`. */
    method IterateAll(code: seq<Byte>, address: nat, n: nat) returns (records: seq<Record<T>>)
      requires Valid()
      ensures records == Iterated(code, address, n) && Lists(records, code, 0, address, false, n) == true
    {
      assert code[0..] == code;
      IteratedLists(code, 0, address, n);
      records := [];
      var code', address', i, ok := code, address, 0, true;
      while i < n && ok
        invariant i <= n && Iterated(code, address, n) == records + ToCome(ok, code', address', n - i)
        decreases n - i, ok
      {
        var insn;
        ghost var was, code0, address0 := records, code', address';
        ok, insn, code', address' := DisasmIter(code', address');
        if ok {
          OneCall(was, code0, address0, n - i, insn, At(code0, 0, address0).value.1);
          i := i + 1;
          records := records + [insn];
        }
      }
    }

    // ----- all at once -----

    /** One round of `cs_disasm` up to the counters: the record of the next instruction goes into the free slot. */
    method DisasmNext(code: seq<Byte>, k: nat, offset: nat, total: array<Record<T>>, slot: nat) returns (ok: bool, nextOffset: nat)
      requires Valid() && k <= |code| && slot < total.Length
      modifies total
      ensures total[..slot] == old(total[..slot])
      ensures ok == At(code, k, offset).Some?
      ensures ok ==> (total[slot], nextOffset) == At(code, k, offset).value && 0 < nextOffset <= |code| - k
    {
      ghost var before := total[..slot];
      var buffer, size := code[k..], |code| - k;
      nextOffset := 0;
      total[slot] := Record(offset, 0, Blank);
      match disasm(buffer, offset)
      case Some(d) =>
        total[slot] := Record(offset, d.size, Insn(d.content));
        ok, nextOffset := true, d.size;
        assert total[..slot] == before;
      case None =>
        if !skipdata || skipSize > size {
          assert total[..slot] == before;
          return false, 0;
        }
        var bytes := skipSize;
        if callback.Some? {
          bytes := callback.value(code, k);
          if bytes > size || bytes == 0 {
            assert total[..slot] == before;
            return false, 0;
          }
        }
        total[slot] := Record(offset, bytes, Raw(buffer[..bytes]));
        ok, nextOffset := true, bytes;
        assert total[..slot] == before;
    }

    method Realloc(a: array<Record<T>>, n: nat) returns (b: array<Record<T>>)
      ensures fresh(b) && b.Length == n && forall i :: 0 <= i < n && i < a.Length ==> b[i] == a[i]
    {
      b := new Record<T>[n](i requires 0 <= i reads a => if i < a.Length then a[i] else Record(0, 0, Blank));
    }

    ghost function Limit(code: seq<Byte>, count: nat): nat { if count == 0 then |code| else count }

    /** The first size of the cache. */
    function FirstCache(count: nat, cache: nat, exact: bool): nat {
      if exact && count > 0 && count <= cache then count else cache
    }

    /** The most records that there can be. */
    function Most(code: seq<Byte>, count: nat): nat { if count == 0 || |code| < count then |code| else count }

    /** What has been stored and what is still to come. */
    ghost predicate Split(code: seq<Byte>, address: nat, limit: nat, stored: seq<Record<T>>, k: nat, offset: nat)
      requires Valid()
    {
      && k <= |code| && |stored| <= limit
      && Sweep(code, 0, address, limit) == stored + Sweep(code, k, offset, limit - |stored|)
    }

    lemma SplitNext(code: seq<Byte>, address: nat, limit: nat, stored: seq<Record<T>>, k: nat, offset: nat,
                    stored': seq<Record<T>>, size: nat)
      requires Valid() && Split(code, address, limit, stored, k, offset) && |stored| < limit
      requires At(code, k, offset).Some? && size == At(code, k, offset).value.1
      requires stored' == stored + [At(code, k, offset).value.0]
      ensures k + size <= |code| && Split(code, address, limit, stored', k + size, (offset + size) % ADDRESSES) == true
    {
      AtAdvances(code, k, offset);
    }

    lemma SplitEnds(code: seq<Byte>, address: nat, limit: nat, stored: seq<Record<T>>, k: nat, offset: nat)
      requires Valid() && Split(code, address, limit, stored, k, offset)
      requires |stored| == limit || At(code, k, offset).None?
      ensures stored == Sweep(code, 0, address, limit)
    {
    }

    lemma NothingLeft(code: seq<Byte>, offset: nat)
      requires Valid()
      ensures At(code, |code|, offset).None?
    {
    }

    /**
     * `cs_disasm`: the records of the sweep, as many as asked for, in an array of exactly that many slots. `cache` is
     * the first size of the array; `exact` says that a smaller count sets it. No cache on the way may have size 0.
     */
    method Disasm(code: seq<Byte>, address: nat, count: nat, cache: nat, exact: bool) returns (c: nat, insn: array?<Record<T>>)
      requires Valid() == true && cache > 0 && Roomy(Most(code, count), FirstCache(count, cache, exact))
      ensures c == |Sweep(code, 0, address, Limit(code, count))|
      ensures insn == null <==> c == 0
      ensures insn != null ==> fresh(insn) && insn.Length == c && insn[..] == Sweep(code, 0, address, Limit(code, count))
    {
      ghost var limit, most := Limit(code, count), Most(code, count);
      var cacheSize := FirstCache(count, cache, exact);
      var totalSize := cacheSize;
      var total := new Record<T>[totalSize](_ => Record(0, 0, Blank));
      var size: nat, offset: nat, f: nat, slot: nat := |code|, address, 0, 0;
      ghost var k := 0;
      c := 0;
      ghost var finished := false;
      while size > 0
        invariant fresh(total) && k == |code| - size && slot == c && !finished && c <= k && (count > 0 ==> c < count)
        invariant f <= cacheSize && f <= c <= most && total.Length == totalSize == c - f + cacheSize
        invariant (f == cacheSize ==> c == most) && Roomy(most - (c - f), cacheSize) == true
        invariant Split(code, address, limit, total[..c], k, offset) == true
        decreases size
      {
        ghost var stored := total[..c];
        var r, nextOffset := DisasmNext(code, |code| - size, offset, total, slot);
        if !r {
          finished := true;
          break;
        }
        f := f + 1;
        c := c + 1;
        assert total[..c] == stored + [total[slot]];
        SplitNext(code, address, limit, stored, k, offset, total[..c], nextOffset);
        k := k + nextOffset;
        if count > 0 && c == count {
          finished := true;
          offset := (offset + nextOffset) % ADDRESSES;
          break;
        }
        total, slot, f, cacheSize, totalSize := MakeRoom(total, c, slot, f, cacheSize, totalSize, most);
        size := size - nextOffset;
        offset := (offset + nextOffset) % ADDRESSES;
      }
      if !finished {
        NothingLeft(code, offset);
      }
      SplitEnds(code, address, limit, total[..c], k, offset);
      insn := Trim(total, c, f, cacheSize, totalSize);
    }

    /** The cache is full: room for 1.6 times as many records as it held, after all those so far. */
    method Grow(total: array<Record<T>>, c: nat, cacheSize: nat, totalSize: nat)
      returns (cacheSize': nat, totalSize': nat, total': array<Record<T>>)
      requires total.Length == totalSize == c
      ensures cacheSize' == NextCache(cacheSize) && totalSize' == total'.Length == c + cacheSize'
      ensures fresh(total') && total'[..c] == total[..c]
    {
      cacheSize' := (cacheSize * 8 % UINT) / 5;
      totalSize' := totalSize + cacheSize';
      total' := Realloc(total, totalSize');
    }

    /** After a record: the next slot, in a larger array if the cache is full. */
    method MakeRoom(total: array<Record<T>>, c: nat, slot: nat, f: nat, cacheSize: nat, totalSize: nat, ghost most: nat)
      returns (total': array<Record<T>>, slot': nat, f': nat, cacheSize': nat, totalSize': nat)
      requires f <= cacheSize && f <= c <= most && total.Length == totalSize == c - f + cacheSize && slot + 1 == c
      requires Roomy(most - (c - f), cacheSize) == true
      ensures f' <= cacheSize' && f' <= c && total'.Length == totalSize' == c - f' + cacheSize'
      ensures (total' == total || fresh(total')) && total'[..c] == total[..c] && slot' == c
      ensures (f' == cacheSize' ==> c == most) && Roomy(most - (c - f'), cacheSize') == true
    {
      if f == cacheSize {
        RoomyNext(most - (c - f), cacheSize);
        cacheSize', totalSize', total' := Grow(total, c, cacheSize, totalSize);
        slot', f' := c, 0;
      } else {
        total', slot', f', cacheSize', totalSize' := total, slot + 1, f, cacheSize, totalSize;
      }
    }

    /** The end of `cs_disasm`: no array without records, and no slot too many. */
    method Trim(total: array<Record<T>>, c: nat, f: nat, cacheSize: nat, totalSize: nat) returns (insn: array?<Record<T>>)
      requires f <= cacheSize && f <= c && total.Length == totalSize == c - f + cacheSize
      ensures insn == null <==> c == 0
      ensures insn != null ==> (insn == total || fresh(insn)) && insn.Length == c && insn[..] == total[..c]
    {
      if c == 0 {
        insn := null;
      } else if f != cacheSize {
        insn := Realloc(total, totalSize - (cacheSize - f));
      } else {
        insn := total;
      }
    }
  }

  /** A callback that looks at the position: where nothing can be decoded, skip one byte at first and then two. */
  function Steady(): Handle<nat> {
    Handle((code: seq<Byte>, address: nat) => None, true, 1, Some((code: seq<Byte>, k: nat) => if k == 0 then 1 else 2))
  }

  /** All at once it skips one byte and two, one at a time three times one byte. */
  lemma CallbacksMayDisagree(code: seq<Byte>, address: nat)
    requires |code| == 3
    ensures Steady().Valid() && Steady().Sweep(code, 0, address, 3) != Steady().Iterated(code, address, 3)
  {
    var h := Steady();
    assert code[0..] == code;
    assert h.At(code, 0, address).value.1 == 1;
    assert !h.AgreesAt(code, 1, (address + 1) % ADDRESSES);
    assert !h.Agreed(code, 1, (address + 1) % ADDRESSES, 2);
    assert !h.Agreed(code, 0, address, 3);
    h.SweepIsIterated(code, 0, address, 3);
  }
}
