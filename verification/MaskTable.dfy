/** The token table the client ships, and the laws of `MaskLaws` and `MaskRoundTrip` for it. */
module MaskTable {
  import opened ErrorMask
  import opened MaskLaws
  import opened MaskRoundTrip

  const BULK_ITEMS: Bit := 0
  const SEARCH_SHARDS: Bit := 1
  const MULTI_SEARCH_ITEMS: Bit := 7

  const TOKEN_ORDER: TokenTable := [
    TokenEntry(BULK_ITEMS, "bulk_items"),
    TokenEntry(SEARCH_SHARDS, "search_shards"),
    TokenEntry(2, "write_shards"),
    TokenEntry(3, "broadcast_shards"),
    TokenEntry(4, "node_failures"),
    TokenEntry(5, "bulk_by_scroll_failures"),
    TokenEntry(6, "task_failures"),
    TokenEntry(MULTI_SEARCH_ITEMS, "multi_search_items"),
    TokenEntry(8, "multi_doc_items"),
    TokenEntry(9, "snapshot_create_shard_failures"),
    TokenEntry(10, "snapshot_get_shard_failures"),
    TokenEntry(11, "simulate_doc_failures"),
    TokenEntry(12, "rank_eval_failures"),
    TokenEntry(13, "ingestion_shard_failures"),
    TokenEntry(14, "pit_node_failures")
  ]

  /** Length and first letter tell the shipped names apart. */
  function Stamp(name: string): (int, char) {
    (|name|, if name == "" then ' ' else name[0])
  }

  lemma ShardNamesAreProper()
    ensures ProperName("bulk_items")
    ensures ProperName("search_shards")
    ensures ProperName("write_shards")
  {
  }

  lemma NodeNamesAreProper()
    ensures ProperName("broadcast_shards")
    ensures ProperName("node_failures")
    ensures ProperName("bulk_by_scroll_failures")
  {
  }

  lemma MultiNamesAreProper()
    ensures ProperName("task_failures")
    ensures ProperName("multi_search_items")
    ensures ProperName("multi_doc_items")
  {
  }

  lemma SnapshotNamesAreProper()
    ensures ProperName("snapshot_create_shard_failures")
    ensures ProperName("snapshot_get_shard_failures")
    ensures ProperName("simulate_doc_failures")
  {
  }

  lemma LateNamesAreProper()
    ensures ProperName("rank_eval_failures")
    ensures ProperName("ingestion_shard_failures")
    ensures ProperName("pit_node_failures")
  {
  }

  lemma NamesAreProper(i: nat)
    requires i < |TOKEN_ORDER|
    ensures ProperName(TOKEN_ORDER[i].token)
  {
    if i < 3 {
      ShardNamesAreProper();
    } else if i < 6 {
      NodeNamesAreProper();
    } else if i < 9 {
      MultiNamesAreProper();
    } else if i < 12 {
      SnapshotNamesAreProper();
    } else {
      LateNamesAreProper();
    }
  }

  lemma StampsOfNames()
    ensures forall i :: 0 <= i < 15 ==> Stamp(TOKEN_ORDER[i].token) == [
      (10, 'b'), (13, 's'), (12, 'w'), (16, 'b'), (13, 'n'), (23, 'b'), (13, 't'), (18, 'm'), (15, 'm'),
      (30, 's'), (27, 's'), (21, 's'), (18, 'r'), (24, 'i'), (17, 'p')][i]
  {
  }

  lemma BitsOfEntries()
    ensures forall i :: 0 <= i < 15 ==> TOKEN_ORDER[i].bit == i
  {
  }

  /** The shipped table meets every assumption of the laws, and `All` is its fifteen low bits. */
  lemma ShippedTableIsWellFormed()
    ensures WellFormed(TOKEN_ORDER)
    ensures forall b: Bit :: b in AllBits(TOKEN_ORDER) <==> b < 15
  {
    var t := TOKEN_ORDER;
    BitsOfEntries();
    NamesAreDistinct(t);
    forall i | 0 <= i < |t| ensures ProperName(t[i].token) {
      NamesAreProper(i);
    }
    forall b: Bit ensures b in AllBits(t) <==> b < 15 {
      AllBitsHolds(t, b);
      assert b < 15 ==> t[b].bit == b;
    }
  }

  lemma NamesAreDistinct(t: TokenTable)
    requires t == TOKEN_ORDER
    ensures forall i, j :: 0 <= i < j < |t| ==> t[i].token != t[j].token
  {
    StampsOfNames();
  }

  /** The laws for the client's own table: printing and parsing are inverse on the fifteen categories, for
      every mask, and a later client whose table extends this one reads every text alike on them. */
  lemma ShippedTableObeysLaws(m: Mask, newer: TokenTable, s: string, base: Mask)
    requires Extends(newer, TOKEN_ORDER)
    ensures ParseSpec(TOKEN_ORDER, Print(TOKEN_ORDER, m), EMPTY) == Parsed(set b | b in m && b < 15, [])
    ensures forall b: Bit :: b < 15 ==>
      (b in ParseSpec(TOKEN_ORDER, s, base).mask <==> b in ParseSpec(newer, s, base).mask)
  {
    ShippedTableIsWellFormed();
    RoundTrip(TOKEN_ORDER, m);
    assert m * AllBits(TOKEN_ORDER) == set b | b in m && b < 15;
    ForwardCompatible(TOKEN_ORDER, newer, s, base);
    var older := ParseSpec(TOKEN_ORDER, s, base).mask;
    forall b: Bit | b < 15 ensures b in older <==> b in ParseSpec(newer, s, base).mask {
      assert b in older * AllBits(TOKEN_ORDER) <==> b in older;
    }
  }
}
