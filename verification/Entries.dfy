/** pkg/store/entry.go: the versioned envelope every node stores. */
module Entries {
  import opened Basics

  /** The bits of Entry.Flags, as members of a set. */
  datatype Flag =
    | FlagNegative | FlagTombstone | FlagBloom | FlagBloomAdd
    | FlagSet | FlagSetAdd | FlagSetRemove
    | FlagZSet | FlagZSetAdd | FlagZSetRem
    | FlagGeo | FlagGeoAdd | FlagGeoRem
    | FlagList | FlagListLPush | FlagListRPush
    | FlagHash | FlagHashSet | FlagHashDel
    | FlagCounter | FlagJSON | FlagJSONSet | FlagJSONDel
    | FlagBitmap | FlagBitmapSet | FlagHLL | FlagHLLAdd
    | FlagTopK | FlagTopKAdd | FlagCMS | FlagCMSIncr
    | FlagVectorSet | FlagStream

  datatype Entry = Entry(value: Bytes, version: uint64, expireAt: int, flags: set<Flag>)
  {
    predicate IsNegative() { FlagNegative in flags }
    predicate IsTombstone() { FlagTombstone in flags }
    predicate IsHash() { FlagHash in flags }
    predicate IsTopK() { FlagTopK in flags }
    predicate IsBloomAdd() { FlagBloomAdd in flags }

    /** Flags whose entries eviction passes over while they are unexpired. */
    predicate IsStructure()
    {
      || FlagTombstone in flags || FlagBloom in flags || FlagSet in flags || FlagZSet in flags
      || FlagGeo in flags || FlagList in flags || FlagHash in flags || FlagCounter in flags
      || FlagJSON in flags || FlagBitmap in flags || FlagHLL in flags || FlagTopK in flags
      || FlagCMS in flags || FlagVectorSet in flags || FlagStream in flags
    }

    /** Unix nanoseconds; 0 means the entry never expires. */
    predicate Expired(now: int) { expireAt != 0 && now >= expireAt }

    predicate Protected(now: int) { IsStructure() && !Expired(now) }

    function Cost(): int { |value| + 64 }
  }
}
