/**
 * The private-asset ledger: a fixed array of 256 shards, each an append-only list of
 * commitments with the Merkle root of that list. A commitment belongs to the shard
 * named by its first byte.
 */
module Ledger {
  import opened Wrappers
  import opened Bytes
  import opened MantaError
  import opened Crypto

  const ShardCount := 256

  /** A list of commitments and the Merkle root of that list. */
  datatype Shard = Shard(list: seq<Digest>, root: Digest)

  /** The derived `Default` of a shard: no commitments and an all-zero root. */
  const EmptyShard := Shard([], ZeroDigest)

  /** The shard a commitment is stored in and looked up in: its first byte. */
  function ShardIndex(target: Digest): (i: nat)
    ensures i < ShardCount
  {
    target[0]
  }

  /** The shards of the default ledger. */
  function DefaultShards(): (shards: seq<Shard>)
    ensures |shards| == ShardCount
  {
    seq(ShardCount, _ => EmptyShard)
  }

  /** Some shard's root is `target`. */
  predicate HasRoot(shards: seq<Shard>, target: Digest)
  {
    exists i :: 0 <= i < |shards| && shards[i].root == target
  }

  /** `target` is recorded in the shard it routes to. */
  predicate Contains(shards: seq<Shard>, target: Digest)
    requires |shards| == ShardCount
  {
    target in shards[ShardIndex(target)].list
  }

  datatype UpdateOutcome = UpdateOutcome(shards: seq<Shard>, result: Result<(), Error>)

  /**
   * The effect of `update` on the shards: `target` is pushed onto its shard's list, then
   * the shard's root is recomputed over the whole list. When the Merkle root cannot be
   * computed the push has already happened and the root is left as it was.
   */
  function UpdateShards(prims: Primitives, param: HashParam, shards: seq<Shard>, target: Digest): (o: UpdateOutcome)
    requires |shards| == ShardCount
    ensures |o.shards| == ShardCount
  {
    var i := ShardIndex(target);
    var list := shards[i].list + [target];
    match prims.merkleRoot(param, list)
    case Ok(root) => UpdateOutcome(shards[i := Shard(list, root)], Ok(()))
    case Err(e) => UpdateOutcome(shards[i := Shard(list, shards[i].root)], Err(CryptoFailure(e)))
  }

  class PrivateAssetLedger {
    const shard: array<Shard>

    ghost predicate Valid()
      reads this
    {
      shard.Length == ShardCount
    }

    /** `MantaPrivateAssetLedger::default`: 256 empty shards. */
    constructor ()
      ensures Valid() && fresh(shard)
      ensures shard[..] == DefaultShards()
    {
      shard := new Shard[ShardCount](_ => EmptyShard);
    }

    /** `check_root`: whether any of the 256 shards has root `target`. */
    method CheckRoot(target: Digest) returns (found: bool)
      requires Valid()
      ensures found <==> HasRoot(shard[..], target)
    {
      var i := 0;
      while i < ShardCount
        invariant 0 <= i <= ShardCount
        invariant forall j :: 0 <= j < i ==> shard[j].root != target
      {
        if shard[i].root == target {
          assert shard[..][i].root == target;
          return true;
        }
        i := i + 1;
      }
      return false;
    }

    /** `exist`: whether `target` occurs in the list of shard `target[0]`; no other shard is read. */
    method Exist(target: Digest) returns (found: bool)
      requires Valid()
      ensures found <==> Contains(shard[..], target)
    {
      var list := shard[ShardIndex(target)].list;
      var i := 0;
      while i < |list|
        invariant 0 <= i <= |list|
        invariant target !in list[..i]
      {
        if list[i] == target {
          return true;
        }
        assert list[..i + 1] == list[..i] + [list[i]];
        i := i + 1;
      }
      assert list[..i] == list;
      return false;
    }

    /** `update`: append `target` to its shard (no deduplication) and refresh that shard's root. */
    method Update(target: Digest, prims: Primitives, param: HashParam) returns (res: Result<(), Error>)
      requires Valid()
      modifies shard
      ensures Valid()
      ensures shard[..] == UpdateShards(prims, param, old(shard[..]), target).shards
      ensures res == UpdateShards(prims, param, old(shard[..]), target).result
    {
      var i := ShardIndex(target);
      shard[i] := shard[i].(list := shard[i].list + [target]);
      var root :- Lift(prims.merkleRoot(param, shard[i].list));
      shard[i] := shard[i].(root := root);
      return Ok(());
    }
  }

  // ---------------------------------------------------------------------------
  // Properties of the update rule

  /** Only the shard `target` routes to changes, and it changes by `target` appended at the end. */
  lemma UpdateRoutesByFirstByte(prims: Primitives, param: HashParam, shards: seq<Shard>, target: Digest)
    requires |shards| == ShardCount
    ensures var o := UpdateShards(prims, param, shards, target);
      && (forall j :: 0 <= j < ShardCount && j != ShardIndex(target) ==> o.shards[j] == shards[j])
      && o.shards[ShardIndex(target)].list == shards[ShardIndex(target)].list + [target]
  {
  }

  /** After an update, the commitment exists, and everything that existed still does, in its place. */
  lemma UpdateIsAppendOnly(prims: Primitives, param: HashParam, shards: seq<Shard>, target: Digest, other: Digest)
    requires |shards| == ShardCount
    ensures var o := UpdateShards(prims, param, shards, target);
      && Contains(o.shards, target)
      && (Contains(shards, other) ==> Contains(o.shards, other))
      && (forall j :: 0 <= j < ShardCount ==> shards[j].list <= o.shards[j].list)
  {
  }

  /**
   * A successful update leaves the shard's root equal to the Merkle root of its new list,
   * so `check_root` accepts that root; a failed one reports the primitive's error and
   * leaves the list extended under the old root.
   */
  lemma UpdateRefreshesRoot(prims: Primitives, param: HashParam, shards: seq<Shard>, target: Digest)
    requires |shards| == ShardCount
    ensures var o := UpdateShards(prims, param, shards, target);
      var i := ShardIndex(target);
      var list := shards[i].list + [target];
      && (o.result.Ok? <==> prims.merkleRoot(param, list).Ok?)
      && (o.result.Ok? ==> o.shards[i].root == prims.merkleRoot(param, list).value)
      && (o.result.Ok? ==> HasRoot(o.shards, prims.merkleRoot(param, list).value))
      && (o.result.Err? ==> o.shards[i].root == shards[i].root)
      && (o.result.Err? ==> o.result.error == CryptoFailure(prims.merkleRoot(param, list).error))
  {
  }

  /** The ledger does not deduplicate: each update adds one more copy of the commitment. */
  lemma UpdateAddsOneCopy(prims: Primitives, param: HashParam, shards: seq<Shard>, target: Digest)
    requires |shards| == ShardCount
    ensures var o := UpdateShards(prims, param, shards, target);
      multiset(o.shards[ShardIndex(target)].list)[target] == multiset(shards[ShardIndex(target)].list)[target] + 1
  {
  }

  /** The default ledger records nothing, and the all-zero digest is its only root. */
  lemma DefaultLedgerIsEmpty(target: Digest)
    ensures !Contains(DefaultShards(), target)
    ensures HasRoot(DefaultShards(), target) <==> target == ZeroDigest
  {
  }

  /**
   * Posting a commitment to a fresh ledger: it then exists, and when the Merkle root of
   * its one-element shard can be computed, `check_root` accepts that root.
   */
  method PostToFreshLedger(prims: Primitives, param: HashParam, cm: Digest) returns (present: bool, rootAccepted: bool)
    ensures present
    ensures prims.merkleRoot(param, [cm]).Ok? ==> rootAccepted
  {
    var ledger := new PrivateAssetLedger();
    assert DefaultShards()[ShardIndex(cm)].list + [cm] == [cm];
    var _ := ledger.Update(cm, prims, param);
    present := ledger.Exist(cm);
    rootAccepted := false;
    match prims.merkleRoot(param, [cm]) {
      case Ok(root) =>
        assert ledger.shard[..][ShardIndex(cm)].root == root;
        rootAccepted := ledger.CheckRoot(root);
      case Err(_) =>
    }
  }
}
