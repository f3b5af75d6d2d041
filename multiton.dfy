/** `Multiton<T>` of src/design/creational/multiton.cpp: a keyed cache of
    instances that creates an instance the first time its key is asked for
    and hands out the same instance ever after. Every instantiation
    `Multiton<T>` has its own static `instances` map; a `Registry` object
    stands for one such map, and `std::shared_ptr` identity is object
    identity. */
module Multiton {

  class Multiton {
    const key: string

    /** The private constructor, reachable only from `GetInstance`. */
    constructor (key: string)
      ensures this.key == key
    {
      this.key := key;
    }
  }

  /** Every instance is stored under its own key. */
  predicate KeysMatch(m: map<string, Multiton>) {
    forall k :: k in m ==> m[k].key == k
  }

  /** Since each instance sits under its own key, distinct keys never share
      an instance. */
  lemma DistinctKeysDistinctInstances(m: map<string, Multiton>, k1: string, k2: string)
    requires KeysMatch(m) && k1 in m && k2 in m && k1 != k2
    ensures m[k1] != m[k2]
  {
  }

  /** The static `instances` map of one instantiation `Multiton<T>`. */
  class Registry {
    var instances: map<string, Multiton>

    predicate Valid()
      reads this
    {
      KeysMatch(instances)
    }

    constructor ()
      ensures Valid() && instances == map[]
    {
      instances := map[];
    }

    /** `getInstance(key)`: look the key up, create and store an instance
        when it is missing, and return the stored one. */
    method GetInstance(key: string) returns (instance: Multiton)
      requires Valid()
      modifies this
      ensures Valid()
      ensures instance.key == key && key in instances && instances[key] == instance
      ensures key in old(instances) ==> instances == old(instances) && instance == old(instances)[key]
      ensures key !in old(instances) ==> fresh(instance) && instances == old(instances)[key := instance]
      ensures forall k :: k in old(instances) ==> k in instances && instances[k] == old(instances)[k]
    {
      if key !in instances {
        var created := new Multiton(key);
        instances := instances[key := created];
      }
      instance := instances[key];
    }
  }

  /** `testMultiton`: asking `Multiton<int>` twice for "key1" and
      `Multiton<double>` twice for "key2" yields the same instance each time. */
  method MultitonTest() returns (instance1: Multiton, instance3: Multiton, instance2: Multiton, instance4: Multiton)
    ensures instance1 == instance3 && instance2 == instance4
    ensures instance1.key == "key1" && instance2.key == "key2"
  {
    var intInstances := new Registry();
    var doubleInstances := new Registry();
    instance1 := intInstances.GetInstance("key1");
    instance2 := doubleInstances.GetInstance("key2");
    instance3 := intInstances.GetInstance("key1");
    instance4 := doubleInstances.GetInstance("key2");
  }
}
