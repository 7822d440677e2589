/** The reassembler as it runs: open entries plus running byte counters, changed in place. */
module Reassembler {
  import opened Base
  import opened AppMessages
  import opened Fragmentation
  import opened Reassembly

  /** `usize` on the narrowest supported target, a 32-bit browser. */
  const USIZE_MAX: nat := 0xFFFF_FFFF

  function UsizeAdd(a: nat, b: nat): nat { if a + b > USIZE_MAX then USIZE_MAX else a + b }
  function UsizeSub(a: nat, b: nat): nat { if a < b then 0 else a - b }

  function CountFor(peerBytes: map<PeerId, nat>, p: PeerId): nat { if p in peerBytes then peerBytes[p] else 0 }

  /** The counters are what a scan of the open entries gives. */
  ghost predicate Books(es: Entries, peerBytes: map<PeerId, nat>, globalBytes: nat) {
    && globalBytes == Held(es, None)
    && forall p: PeerId :: CountFor(peerBytes, p) == Held(es, Some(p))
  }

  /** Removing an entry and its bytes keeps the books; neither subtraction bottoms out. */
  lemma BooksRelease(es: Entries, peerBytes: map<PeerId, nat>, globalBytes: nat, k: Key)
    requires Books(es, peerBytes, globalBytes) && k in es
    ensures es[k].bytes <= globalBytes && es[k].bytes <= CountFor(peerBytes, k.author)
    ensures Books(es - {k},
                  if k.author in peerBytes then peerBytes[k.author := UsizeSub(peerBytes[k.author], es[k].bytes)]
                      else peerBytes,
                  UsizeSub(globalBytes, es[k].bytes))
  {
    HeldTake(es, k, None);
    assert CountFor(peerBytes, k.author) == Held(es, Some(k.author));
    HeldTake(es, k, Some(k.author));
    var after := if k.author in peerBytes then peerBytes[k.author := UsizeSub(peerBytes[k.author], es[k].bytes)]
        else peerBytes;
    forall p: PeerId ensures CountFor(after, p) == Held(es - {k}, Some(p)) {
      HeldTake(es, k, Some(p));
    }
  }

  /** Adding a chunk under both ceilings keeps the books; neither addition saturates. */
  lemma BooksFill(es: Entries, peerBytes: map<PeerId, nat>, globalBytes: nat, p: Push)
    requires Books(es, peerBytes, globalBytes) && Fits(es, p) && p.fragment.index < |EntryFor(es, p).chunks|
    ensures var n := |p.fragment.payload|;
            && UsizeAdd(globalBytes, n) == globalBytes + n
            && UsizeAdd(CountFor(peerBytes, p.author), n) == CountFor(peerBytes, p.author) + n
            && Books(es[KeyOf(p) := Fill(EntryFor(es, p), p.fragment)],
                     peerBytes[p.author := UsizeAdd(CountFor(peerBytes, p.author), n)],
                     UsizeAdd(globalBytes, n))
  {
    FillHeld(es, p, None);
    var n := |p.fragment.payload|;
    assert CountFor(peerBytes, p.author) == Held(es, Some(p.author));
    var after := peerBytes[p.author := CountFor(peerBytes, p.author) + n];
    forall a: PeerId
      ensures CountFor(after, a) == Held(es[KeyOf(p) := Fill(EntryFor(es, p), p.fragment)], Some(a))
    {
      FillHeld(es, p, Some(a));
    }
  }

  method AssembleAll(chunks: Chunks) returns (payload: seq<byte>)
    requires Complete(chunks)
    ensures payload == Assemble(chunks)
  {
    payload := [];
    assert chunks[..0] == [];
    for i := 0 to |chunks|
      invariant payload == Assemble(chunks[..i])
    {
      payload := payload + chunks[i].value;
      assert chunks[..i + 1][..i] == chunks[..i];
    }
    assert chunks[..|chunks|] == chunks;
  }

  class AppFragmentReassembler {
    const libs: Libs
    var entries: Entries
    var peerBytes: map<PeerId, nat>
    var globalBytes: nat

    ghost predicate Valid()
      reads this
    {
      Inv(libs, entries) && Books(entries, peerBytes, globalBytes)
    }

    constructor (libs: Libs)
      ensures Valid() && this.libs == libs && entries == map[]
    {
      this.libs := libs;
      entries, peerBytes, globalBytes := map[], map[], 0;
    }

    /** Take one entry out, with its bytes. */
    method Release(k: Key) returns (e: Entry)
      requires Books(entries, peerBytes, globalBytes) && k in entries
      modifies this
      ensures Books(entries, peerBytes, globalBytes)
      ensures e == old(entries)[k] && entries == old(entries) - {k}
    {
      BooksRelease(entries, peerBytes, globalBytes, k);
      e := entries[k];
      entries := entries - {k};
      globalBytes := UsizeSub(globalBytes, e.bytes);
      if k.author in peerBytes {
        peerBytes := peerBytes[k.author := UsizeSub(peerBytes[k.author], e.bytes)];
      }
    }

    method ReleaseAll(gone: set<Key>)
      requires Books(entries, peerBytes, globalBytes) && gone <= entries.Keys
      modifies this
      ensures Books(entries, peerBytes, globalBytes) && entries == old(entries) - gone
    {
      var todo := gone;
      assert entries == old(entries) - (gone - todo);
      while todo != {}
        invariant todo <= gone && entries == old(entries) - (gone - todo)
        invariant Books(entries, peerBytes, globalBytes)
        decreases todo
      {
        var k :| k in todo;
        var _ := Release(k);
        todo := todo - {k};
        assert entries == old(entries) - (gone - todo);
      }
    }

    method Expire(now: nat)
      requires Valid()
      modifies this
      ensures Valid() && entries == Live(old(entries), now)
      ensures forall k :: k in entries <==> k in old(entries) && now < old(entries)[k].created + 30_000_000_000
      ensures forall k :: k in entries ==> entries[k] == old(entries)[k]
      ensures forall p :: p in peerBytes ==> peerBytes[p] > 0
    {
      DropKeepsInv(libs, entries, Expired(entries, now));
      ReleaseAll(Expired(entries, now));
      ghost var counts := peerBytes;
      peerBytes := map p | p in peerBytes && peerBytes[p] > 0 :: peerBytes[p];
      assert forall p: PeerId :: CountFor(peerBytes, p) == CountFor(counts, p);
    }

    method Push(p: Push) returns (r: Outcome)
      requires Valid() && Checked(libs, p)
      modifies this
      ensures Valid()
      ensures (entries, r) == PushSpec(libs, old(entries), p)
    {
      PushKeepsInv(libs, entries, p);
      Expire(p.now);
      r := PushLive(p);
    }

    /** The rest of `Push`, once expired entries are gone. */
    method PushLive(p: Push) returns (r: Outcome)
      requires Valid() && Checked(libs, p) && Inv(libs, Admit(libs, entries, p).0)
      modifies this
      ensures Valid()
      ensures (entries, r) == Admit(libs, old(entries), p)
    {
      var f, key := p.fragment, KeyOf(p);
      if f.meta.sourcePeerId != libs.peerText(p.author) { return Err(WrongAuthor); }
      assert CountFor(peerBytes, p.author) == Held(entries, Some(p.author));
      var currentPeer := CountFor(peerBytes, p.author);
      if UsizeAdd(currentPeer, |f.payload|) > MAX_BYTES_PER_PEER
          || UsizeAdd(globalBytes, |f.payload|) > MAX_BYTES_GLOBAL {
        return Err(CeilingExceeded);
      }
      var entry := EntryFor(entries, p);
      if entry.meta != f.meta { return Err(MetadataMismatch); }
      if entry.chunks[f.index].Some? { return Ok(None); }
      r := AddChunk(p);
    }

    /** Store a new chunk; when it was the last one missing, close the entry and hand the message on. */
    method AddChunk(p: Push) returns (r: Outcome)
      requires Books(entries, peerBytes, globalBytes) && Fits(entries, p)
      requires p.fragment.index < |EntryFor(entries, p).chunks|
      modifies this
      ensures Books(entries, peerBytes, globalBytes)
      ensures var filled := Fill(EntryFor(old(entries), p), p.fragment);
              if Complete(filled.chunks)
              then entries == old(entries) - {KeyOf(p)} && r == Deliver(libs, filled.meta, Assemble(filled.chunks))
              else entries == old(entries)[KeyOf(p) := filled] && r == Ok(None)
    {
      var f, key := p.fragment, KeyOf(p);
      var currentPeer := CountFor(peerBytes, p.author);
      BooksFill(entries, peerBytes, globalBytes, p);
      entries := entries[key := Fill(EntryFor(entries, p), f)];
      globalBytes := UsizeAdd(globalBytes, |f.payload|);
      peerBytes := peerBytes[p.author := UsizeAdd(currentPeer, |f.payload|)];
      if !Complete(entries[key].chunks) { return Ok(None); }
      var done := Release(key);
      assert entries == old(entries) - {key};
      var payload := AssembleAll(done.chunks);
      r := Deliver(libs, done.meta, payload);
    }
  }
}
