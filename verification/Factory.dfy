/** `ResourcePackFactory`: the packs in load order and the index the scheduler asks. */
module Factory {
  import opened Common
  import opened Codec
  import opened ChunkMath
  import opened SchedulerSpec
  import opened Scheduler

  /** A C++ `int`. */
  type int32 = n: int | -0x8000_0000 <= n < 0x8000_0000

  /** The pack an id means: the last one loaded with it. */
  function LastWithId(packs: seq<ResourcePack>, id: Uuid): Option<ResourcePack> {
    if packs == [] then None
    else if packs[|packs| - 1].packId == id then Some(packs[|packs| - 1])
    else LastWithId(packs[..|packs| - 1], id)
  }

  /** It carries the id, and no pack loaded after it does; there is none only if no pack does. */
  lemma {:induction false} LastWithIdIs(packs: seq<ResourcePack>, id: Uuid) returns (i: int)
    ensures match LastWithId(packs, id)
            case None => i == -1
            case Some(p) => 0 <= i < |packs| && packs[i] == p && p.packId == id
    ensures forall j :: i < j < |packs| ==> packs[j].packId != id
  {
    if packs == [] {
      i := -1;
    } else if packs[|packs| - 1].packId == id {
      i := |packs| - 1;
    } else {
      var before := packs[..|packs| - 1];
      i := LastWithIdIs(before, id);
      forall j | i < j < |packs|
        ensures packs[j].packId != id
      {
        assert j < |packs| - 1 ==> before[j].packId != id;
      }
    }
  }

  function Concat(loaded: seq<seq<ResourcePack>>): seq<ResourcePack> {
    if loaded == [] then [] else loaded[0] + Concat(loaded[1..])
  }

  /** What the loaders return, one after the other, in the order they are visited. */
  lemma {:induction false} ConcatIs(a: seq<seq<ResourcePack>>, b: seq<seq<ResourcePack>>, x: seq<ResourcePack>)
    ensures Concat(a + b) == Concat(a) + Concat(b) && Concat([x]) == x
  {
    assert [x][1..] == [] && x + [] == x;
    if a == [] {
      assert a + b == b;
    } else {
      TailOfConcat(a, b);
      ConcatIs(a[1..], b, x);
      Assoc(a[0], Concat(a[1..]), Concat(b));
    }
  }

  ghost predicate Indexes(index: map<Uuid, ResourcePack>, packs: seq<ResourcePack>) {
    forall id: Uuid :: LastWithId(packs, id) == if id in index then Some(index[id]) else None
  }

  lemma IndexOne(index: map<Uuid, ResourcePack>, packs: seq<ResourcePack>, p: ResourcePack)
    requires Indexes(index, packs)
    ensures Indexes(index[p.packId := p], packs + [p])
  {
    assert (packs + [p])[..|packs|] == packs;
  }

  /** Every indexed pack has the id it is indexed under, as a session requires of its factory. */
  lemma IndexedById(index: map<Uuid, ResourcePack>, packs: seq<ResourcePack>)
    requires Indexes(index, packs)
    ensures forall id :: id in index ==> index[id].packId == id && index[id] in packs
  {
    forall id | id in index
      ensures index[id].packId == id && index[id] in packs
    {
      assert LastWithId(packs, id) == Some(index[id]);
      var i := LastWithIdIs(packs, id);
    }
  }

  class ResourcePackFactory {
    var maxChunkSize: int32
    var packs: seq<ResourcePack>
    var packsById: map<Uuid, ResourcePack>

    ghost predicate Valid()
      reads this
    {
      maxChunkSize > 0 && Indexes(packsById, packs)
    }

    constructor (loaded: seq<seq<ResourcePack>>)
      ensures Valid() && packs == Concat(loaded) && maxChunkSize == 1024 * 256
    {
      maxChunkSize, packs, packsById := 1024 * 256, [], map[];
      new;
      ReloadPacks(loaded);
    }

    /** `loaded` is what each loader returns, in the order the loaders are visited. */
    method ReloadPacks(loaded: seq<seq<ResourcePack>>)
      requires maxChunkSize > 0
      modifies this`packs, this`packsById
      ensures Valid() && packs == Concat(loaded)
    {
      packs, packsById := [], map[];
      for i := 0 to |loaded|
        invariant Valid() && packs + Concat(loaded[i..]) == Concat(loaded)
      {
        ghost var before := packs;
        assert loaded[i..][1..] == loaded[i + 1..];
        for j := 0 to |loaded[i]|
          invariant Valid() && packs == before + loaded[i][..j]
        {
          IndexOne(packsById, packs, loaded[i][j]);
          assert loaded[i][..j + 1] == loaded[i][..j] + [loaded[i][j]];
          packs := packs + [loaded[i][j]];
          packsById := packsById[loaded[i][j].packId := loaded[i][j]];
        }
        assert loaded[i][..|loaded[i]|] == loaded[i];
      }
    }

    method GetResourceStack() returns (out: seq<ResourcePack>)
      ensures out == packs
    {
      out := [];
      for i := 0 to |packs|
        invariant out == packs[..i]
      {
        out := out + [packs[i]];
      }
    }

    method GetPackById(id: Uuid) returns (r: Option<ResourcePack>)
      requires Valid()
      ensures r == LastWithId(packs, id)
    {
      r := if id in packsById then Some(packsById[id]) else None;
    }

    /** Throws, changing nothing, unless the size is positive. */
    method SetMaxChunkSize(size: int32) returns (ok: bool)
      requires Valid()
      modifies this`maxChunkSize
      ensures Valid() && (ok <==> size > 0) && maxChunkSize == if ok then size else old(maxChunkSize)
    {
      ok := size > 0;
      if ok {
        maxChunkSize := size;
      }
    }

    /** A session over this factory: it offers the last pack of each id, and stacks the packs in load order. */
    method NewSession(force: bool, rounding: real -> real) returns (session: Session)
      requires Valid() && RoundsToNearest(rounding)
      requires forall p :: p in packs ==>
                 && !p.failed && |p.content| < DOUBLE_PRECISION
                 && ChunkCount(|p.content|, maxChunkSize) < INT_LIMIT
      ensures fresh(session) && session.Valid() && session.Quiet() && session.View() == INITIAL
      ensures session.offer.stack == Stack(packs) && session.offer.maxChunk == maxChunkSize
      ensures session.offer.force == force
      ensures forall id: Uuid :: match LastWithId(packs, id)
                case None => id !in session.offer.packs
                case Some(p) => id in session.offer.packs
                                && session.offer.packs[id] == PackInfo(p.content, p.version, p.sha256)
    {
      hide ChunkCount, RoundsToNearest, Stack, LastWithId;
      IndexedById(packsById, packs);
      session := new Session(packsById, packs, maxChunkSize, force, rounding);
      session.OffersIndex();
    }
  }
}
