/**
 * `DataProcessor` of the mixed project: `process` maps `_transform` over a
 * list of records. The processor's `cache` is never read or written by either
 * method, so the model carries no state.
 */
module Processor {
  import opened Wrappers

  /**
   * An input record: the `id` key (absent or present with some value), the
   * `value` key (an integer, or absent), and the names of any other keys.
   */
  datatype Item<Id> = Item(id: Option<Id>, value: Option<int>, otherKeys: set<string>)

  /** An output record: exactly the keys `id` and `value`. */
  datatype Record<Id> = Record(id: Option<Id>, value: int)

  /** `item.get('value', 0)`. */
  function ValueOrZero(v: Option<int>): (r: int) {
    match v
    case Some(n) => n
    case None => 0
  }

  /** `_transform(item)`: `{'id': item.get('id'), 'value': item.get('value', 0) * 2}`. */
  function Transform<Id>(item: Item<Id>): (r: Record<Id>) {
    Record(item.id, ValueOrZero(item.value) * 2)
  }

  /** `process(data)`: `[self._transform(item) for item in data]`. */
  function Process<Id>(data: seq<Item<Id>>): (r: seq<Record<Id>>)
    ensures |r| == |data|
    ensures forall i :: 0 <= i < |data| ==> r[i] == Transform(data[i])
  {
    if data == [] then [] else [Transform(data[0])] + Process(data[1..])
  }

  /** The output id is the input id, None when absent; the value is doubled, 0 when absent. */
  lemma TransformFields<Id>(item: Item<Id>)
    ensures Transform(item).id == item.id
    ensures item.value.None? ==> Transform(item).value == 0
    ensures item.value.Some? ==> Transform(item).value == 2 * item.value.value
  {
  }

  /** Keys other than `id` and `value` have no effect on the output. */
  lemma TransformIgnoresOtherKeys<Id>(a: Item<Id>, b: Item<Id>)
    requires a.id == b.id && a.value == b.value
    ensures Transform(a) == Transform(b)
  {
  }

  /** `process` distributes over concatenation. */
  lemma {:induction false} ProcessConcat<Id>(a: seq<Item<Id>>, b: seq<Item<Id>>)
    ensures Process(a + b) == Process(a) + Process(b)
  {
    if a == [] {
      assert a + b == b;
    } else {
      assert (a + b)[1..] == a[1..] + b;
      ProcessConcat(a[1..], b);
    }
  }

  lemma ProcessEmpty<Id>()
    ensures Process<Id>([]) == []
  {
  }
}
