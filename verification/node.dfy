/** One B+ tree node as a mutable record with fixed-size buffers, and the array work done on it. */
module Nodes {
  const MAX_KEYS := 3

  class Node {
    const keys: array<int>
    const values: array<int>
    const children: array<Node?>
    var isLeaf: bool
    var keyCount: nat
    var next: Node?

    /** Buffer sizes: one spare slot for the key that makes a node overflow. */
    ghost predicate Shaped() {
      keys.Length == MAX_KEYS + 1 && values.Length == MAX_KEYS + 1 && children.Length == MAX_KEYS + 2 && keys != values
    }

    /** The objects that make up this node. */
    ghost function Own(): set<object> {
      {this, keys, values, children}
    }

    constructor (leaf: bool)
      ensures Shaped() && fresh(Own())
      ensures isLeaf == leaf && keyCount == 0 && next == null
    {
      keys := new int[MAX_KEYS + 1](_ => 0);
      values := new int[MAX_KEYS + 1](_ => 0);
      children := new Node?[MAX_KEYS + 2](_ => null);
      isLeaf, keyCount, next := leaf, 0, null;
    }

    /** The child slot to descend into: the number of separators not above the key. */
    method FindChildIndex(key: int) returns (index: nat)
      requires Shaped() && keyCount <= MAX_KEYS + 1
      ensures index <= keyCount
      ensures forall i | 0 <= i < index :: keys[i] <= key
      ensures index < keyCount ==> key < keys[index]
    {
      index := 0;
      while index < keyCount && key >= keys[index]
        invariant index <= keyCount
        invariant forall i | 0 <= i < index :: keys[i] <= key
      {
        index := index + 1;
      }
    }

    /** Shifts the tail of a leaf right by one and stores the pair in the gap. */
    method InsertPair(at: nat, key: int, value: int)
      requires Shaped() && at <= keyCount <= MAX_KEYS
      modifies this`keyCount, keys, values
      ensures keyCount == old(keyCount) + 1
      ensures keys[..keyCount] == old(keys[..at]) + [key] + old(keys[at..keyCount])
      ensures values[..keyCount] == old(values[..at]) + [value] + old(values[at..keyCount])
    {
      var index := keyCount;
      while index > at
        modifies keys, values
        invariant at <= index <= keyCount
        invariant forall j | 0 <= j < index :: keys[j] == old(keys[j]) && values[j] == old(values[j])
        invariant forall j | index <= j < keyCount :: keys[j + 1] == old(keys[j]) && values[j + 1] == old(values[j])
      {
        keys[index] := keys[index - 1];
        values[index] := values[index - 1];
        index := index - 1;
      }
      keys[at] := key;
      values[at] := value;
      keyCount := keyCount + 1;
    }

    /** Opens slot `at` among the separators. */
    method ShiftKeys(at: nat)
      requires Shaped() && at <= keyCount <= MAX_KEYS
      modifies keys
      ensures keys[..at] == old(keys[..at]) && keys[at + 1..keyCount + 1] == old(keys[at..keyCount])
    {
      var index := keyCount;
      while index > at
        invariant at <= index <= keyCount
        invariant keys[..index] == old(keys[..index])
        invariant keys[index + 1..keyCount + 1] == old(keys[index..keyCount])
      {
        keys[index] := keys[index - 1];
        index := index - 1;
      }
    }

    /** Opens slot `at` among the child pointers. */
    method ShiftChildren(at: nat)
      requires Shaped() && at <= keyCount + 1 <= MAX_KEYS + 1
      modifies children
      ensures children[..at] == old(children[..at]) && children[at + 1..keyCount + 2] == old(children[at..keyCount + 1])
    {
      var index := keyCount + 1;
      while index > at
        invariant at <= index <= keyCount + 1
        invariant children[..index] == old(children[..index])
        invariant children[index + 1..keyCount + 2] == old(children[index..keyCount + 1])
      {
        children[index] := children[index - 1];
        index := index - 1;
      }
    }

    /** Shifts separators and child pointers right and stores the promoted key with its right child. */
    method InsertChild(at: nat, key: int, child: Node)
      requires Shaped() && at <= keyCount <= MAX_KEYS
      modifies this`keyCount, keys, children
      ensures keyCount == old(keyCount) + 1
      ensures keys[..keyCount] == old(keys[..at]) + [key] + old(keys[at..keyCount])
      ensures children[..keyCount + 1] == old(children[..at + 1]) + [child] + old(children[at + 1..keyCount + 1])
    {
      ShiftKeys(at);
      ShiftChildren(at + 1);
      keys[at] := key;
      children[at + 1] := child;
      keyCount := keyCount + 1;
    }

    /** Moves the upper half of an over-full leaf to an empty right leaf and links it into the chain. */
    method MoveUpperPairs(right: Node)
      requires Shaped() && right.Shaped() && Own() !! right.Own()
      requires keyCount == MAX_KEYS + 1
      modifies this`keyCount, this`next, right`keyCount, right`next, right.keys, right.values
      ensures keyCount == 2 && right.keyCount == 2
      ensures right.keys[..2] == old(keys[2..4]) && right.values[..2] == old(values[2..4])
      ensures next == right && right.next == old(next)
    {
      var splitIndex := keyCount / 2;
      right.keyCount := keyCount - splitIndex;
      var index := 0;
      while index < right.keyCount
        modifies right.keys, right.values
        invariant 0 <= index <= right.keyCount == 2
        invariant right.keys[..index] == keys[2..2 + index] && right.values[..index] == values[2..2 + index]
      {
        right.keys[index] := keys[splitIndex + index];
        right.values[index] := values[splitIndex + index];
        index := index + 1;
      }
      keyCount := splitIndex;
      right.next := next;
      next := right;
    }

    /** Moves the separators and children above the middle key to an empty right node; the middle key leaves both. */
    method MoveUpperChildren(right: Node) returns (promoted: int)
      requires Shaped() && right.Shaped() && Own() !! right.Own()
      requires keyCount == MAX_KEYS + 1
      modifies this`keyCount, right`keyCount, right.keys, right.children
      ensures keyCount == 2 && right.keyCount == 1 && promoted == keys[2]
      ensures right.keys[..1] == keys[3..4] && right.children[..2] == children[3..5]
    {
      var midIndex := keyCount / 2;
      promoted := keys[midIndex];
      right.keyCount := keyCount - midIndex - 1;
      var index := 0;
      while index < right.keyCount
        modifies right.keys
        invariant 0 <= index <= right.keyCount == 1
        invariant right.keys[..index] == keys[3..3 + index]
      {
        right.keys[index] := keys[midIndex + 1 + index];
        index := index + 1;
      }
      index := 0;
      while index <= right.keyCount
        modifies right.children
        invariant 0 <= index <= right.keyCount + 1 == 2
        invariant right.children[..index] == children[3..3 + index]
      {
        right.children[index] := children[midIndex + 1 + index];
        index := index + 1;
      }
      keyCount := midIndex;
    }
  }
}
