/**
 * Field tables of librabbitmq: an ordered sequence of (key, value) entries,
 * the three entry constructors and the lookup by key.
 *
 * Duplicate keys are allowed in a table; the lookup returns the first entry
 * whose key matches.
 */
module AmqpTable {
  import opened Wrappers

  /** A field value, of the kinds the entry constructors build. */
  datatype FieldValue =
    | Utf8(text: string)
    | Boolean(truth: bool)
    | Nested(entries: seq<Entry>)

  /** One table entry, `amqp_table_entry_t`. */
  datatype Entry = Entry(key: string, value: FieldValue)

  /** A field table, `amqp_table_t`: its entries in order. */
  type Table = seq<Entry>

  /** `amqp_table_construct_utf8_entry`: an entry holding a UTF-8 string. */
  function ConstructUtf8Entry(key: string, value: string): (e: Entry)
    ensures e.key == key && e.value.Utf8? && e.value.text == value
  {
    Entry(key, Utf8(value))
  }

  /** `amqp_table_construct_table_entry`: an entry holding a nested table. */
  function ConstructTableEntry(key: string, value: Table): (e: Entry)
    ensures e.key == key && e.value.Nested? && e.value.entries == value
  {
    Entry(key, Nested(value))
  }

  /**
   * `amqp_table_construct_bool_entry`: an entry holding a boolean; the C
   * `int` argument is true when it is non-zero.
   */
  function ConstructBoolEntry(key: string, value: int): (e: Entry)
    ensures e.key == key && e.value.Boolean? && (e.value.truth <==> value != 0)
  {
    Entry(key, Boolean(value != 0))
  }

  /** Whether some entry of the table has the key. */
  predicate HasKey(table: Table, key: string) {
    exists j :: 0 <= j < |table| && table[j].key == key
  }

  /**
   * `amqp_table_get_entry_by_key`: the position of the first entry whose key
   * is `key`, or `None` when no entry has it. The table is only read.
   */
  function GetEntryByKey(table: Table, key: string): (r: Option<nat>)
    ensures r.Some? ==> r.value < |table| && table[r.value].key == key
    ensures r.Some? ==> forall j :: 0 <= j < r.value ==> table[j].key != key
    ensures r.None? <==> !HasKey(table, key)
  {
    if table == [] then None
    else if table[0].key == key then Some(0)
    else match GetEntryByKey(table[1..], key)
      case None => None
      case Some(i) => Some(i + 1)
  }

  /** The first-match contract determines the lookup: it is the only result meeting it. */
  lemma LookupDetermined(table: Table, key: string, i: nat)
    requires i < |table| && table[i].key == key
    requires forall j :: 0 <= j < i ==> table[j].key != key
    ensures GetEntryByKey(table, key) == Some(i)
  {
  }

  /** Of two entries with the same key the earlier one wins. */
  lemma FirstMatchWins(table: Table, a: Entry, between: Table, b: Entry, after: Table)
    requires a.key == b.key && !HasKey(table, a.key)
    ensures GetEntryByKey(table + [a] + between + [b] + after, a.key) == Some(|table|)
  {
    var t := table + [a] + between + [b] + after;
    assert t[|table|] == a;
    forall j | 0 <= j < |table| ensures t[j].key != a.key {
      assert t[j] == table[j];
    }
    LookupDetermined(t, a.key, |table|);
  }

  /** Appending entries does not change a lookup that already succeeds. */
  lemma LookupStableUnderAppend(table: Table, more: Table, key: string)
    requires HasKey(table, key)
    ensures GetEntryByKey(table + more, key) == GetEntryByKey(table, key)
  {
    var i := GetEntryByKey(table, key).value;
    var t := table + more;
    forall j | 0 <= j < i ensures t[j].key != key {
      assert t[j] == table[j];
    }
    assert t[i] == table[i];
    LookupDetermined(t, key, i);
  }

  /**
   * Appending an entry built by a constructor for a key not yet in the table
   * makes the lookup find exactly that entry, holding the value given.
   */
  lemma LookupConstructedEntries(table: Table, key: string, text: string, nested: Table, flag: int)
    requires !HasKey(table, key)
    ensures var t := table + [ConstructUtf8Entry(key, text)];
      GetEntryByKey(t, key) == Some(|table|) && t[|table|].value == Utf8(text)
    ensures var t := table + [ConstructTableEntry(key, nested)];
      GetEntryByKey(t, key) == Some(|table|) && t[|table|].value == Nested(nested)
    ensures var t := table + [ConstructBoolEntry(key, flag)];
      GetEntryByKey(t, key) == Some(|table|) && t[|table|].value == Boolean(flag != 0)
  {
    forall e: Entry | e.key == key ensures GetEntryByKey(table + [e], key) == Some(|table|) {
      var t := table + [e];
      forall j | 0 <= j < |table| ensures t[j].key != key {
        assert t[j] == table[j];
      }
      LookupDetermined(t, key, |table|);
    }
  }
}
