/**
 Slots, connections and the Python 2 ordering `sorted` gives them: a port
 connection compares as the triple (object name, port name, index) and a
 connection as the pair of its ends.
 */
module PortOrder {
  import opened Sorting
  import opened Strings

  datatype PortKey = PortKey(objectName: string, portName: string)

  /** One slot of a (vector) port; a plain port has the single slot 0. */
  datatype Port = Port(key: PortKey, index: nat)

  datatype Connection = Connection(from: Port, to: Port) {
    function Reverse(): Connection { Connection(to, from) }
    predicate Uses(p: Port) { from == p || to == p }
  }

  predicate KeyLe(a: PortKey, b: PortKey) {
    if a.objectName == b.objectName then StringLe(a.portName, b.portName)
    else StringLe(a.objectName, b.objectName)
  }

  predicate PortLe(a: Port, b: Port) {
    if a.key == b.key then a.index <= b.index else KeyLe(a.key, b.key)
  }

  predicate ConnectionLe(a: Connection, b: Connection) {
    if a.from == b.from then PortLe(a.to, b.to) else PortLe(a.from, b.from)
  }

  predicate Precedes(a: Connection, b: Connection) {
    a != b && ConnectionLe(a, b)
  }

  lemma KeyOrder(a: PortKey, b: PortKey, c: PortKey)
    ensures KeyLe(a, b) || KeyLe(b, a)
    ensures KeyLe(a, b) && KeyLe(b, a) ==> a == b
    ensures KeyLe(a, b) && KeyLe(b, c) ==> KeyLe(a, c)
  {
    StringTotal(a.objectName, b.objectName);
    StringTotal(a.portName, b.portName);
    StringTotal(b.objectName, c.objectName);
    if KeyLe(a, b) && KeyLe(b, c) {
      if a.objectName == b.objectName == c.objectName {
        StringTransitive(a.portName, b.portName, c.portName);
      } else if a.objectName != b.objectName && b.objectName != c.objectName {
        StringTransitive(a.objectName, b.objectName, c.objectName);
      }
    }
  }

  lemma PortTotalOrder(a: Port, b: Port, c: Port)
    ensures PortLe(a, b) || PortLe(b, a)
    ensures PortLe(a, b) && PortLe(b, a) ==> a == b
    ensures PortLe(a, b) && PortLe(b, c) ==> PortLe(a, c)
  {
    KeyOrder(a.key, b.key, c.key);
    KeyOrder(b.key, c.key, a.key);
  }

  lemma ConnectionTotalOrder(a: Connection, b: Connection, c: Connection)
    ensures ConnectionLe(a, b) || ConnectionLe(b, a)
    ensures ConnectionLe(a, b) && ConnectionLe(b, a) ==> a == b
    ensures ConnectionLe(a, b) && ConnectionLe(b, c) ==> ConnectionLe(a, c)
  {
    PortTotalOrder(a.from, b.from, c.from);
    PortTotalOrder(a.to, b.to, c.to);
    PortTotalOrder(b.from, c.from, a.from);
  }

  /** `sorted` is used with a total order, so its result is unique. */
  lemma OrderIsTotal()
    ensures TotalPreorder(ConnectionLe)
    ensures Antisymmetric(ConnectionLe)
  {
    forall a, b ensures ConnectionLe(a, b) || ConnectionLe(b, a) {
      ConnectionTotalOrder(a, b, b);
    }
    forall a, b | ConnectionLe(a, b) && ConnectionLe(b, a) ensures a == b {
      ConnectionTotalOrder(a, b, b);
    }
    forall a, b, c | ConnectionLe(a, b) && ConnectionLe(b, c) ensures ConnectionLe(a, c) {
      ConnectionTotalOrder(a, b, c);
    }
  }
}
