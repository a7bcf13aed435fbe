/** Values shared by the indexer's components (pkg/types, pkg/repository). Amounts are unbounded, as in
    the source's `sdk.Int`; dollar values are reals. */
module Types {
  datatype Option<T> = None | Some(value: T)

  /** Wherever a height is asked for, 0 stands for the current one. */
  function EffectiveHeight(current: nat, height: nat): nat { if height == 0 then current else height }

  datatype Coin = Coin(denom: string, amount: int)

  datatype Pool = Pool(height: nat, poolId: nat, liquidity: seq<Coin>, volume: seq<Coin>)

  datatype VolumeAt = VolumeAt(blockHeight: int, volume: seq<Coin>, volumeUSD: seq<real>, relativeVolumeUSD: seq<real>)

  datatype PoolStatus = PoolStatus(poolId: nat, totalLiquidity: seq<Coin>, volumes: seq<VolumeAt>)
}
