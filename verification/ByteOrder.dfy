/** Byte order on strings: Go's `<`, in which diagnostics events are sorted, and in which encoding/json
    writes the keys of a map. */
module ByteOrder {

  /** Go's string order: byte by byte, a prefix first. */
  predicate TextBefore(a: string, b: string) {
    if b == "" then false
    else if a == "" then true
    else if a[0] != b[0] then a[0] < b[0]
    else TextBefore(a[1..], b[1..])
  }

  /** The texts agree before byte `i`, where `a` ends or has the smaller byte. */
  predicate PartAt(a: string, b: string, i: int) {
    0 <= i <= |a| && i < |b| && a[..i] == b[..i] && (i == |a| || a[i] < b[i])
  }

  /** A text comes before another when it is a proper prefix of it or has the smaller byte where they part. */
  lemma {:induction false} TextBeforeMeans(a: string, b: string)
    ensures TextBefore(a, b) <==> exists i :: PartAt(a, b, i)
  {
    if a != "" && b != "" && a[0] == b[0] {
      TextBeforeMeans(a[1..], b[1..]);
      if i :| PartAt(a[1..], b[1..], i) {
        assert a[..i + 1] == [a[0]] + a[1..][..i];
        assert b[..i + 1] == [b[0]] + b[1..][..i];
        assert PartAt(a, b, i + 1);
      }
      if i :| PartAt(a, b, i) {
        assert i > 0;
        assert a[1..][..i - 1] == a[..i][1..];
        assert b[1..][..i - 1] == b[..i][1..];
        assert PartAt(a[1..], b[1..], i - 1);
      }
    } else if b != "" {
      if a == "" || a[0] < b[0] {
        assert PartAt(a, b, 0);
      }
      if i :| PartAt(a, b, i) {
        assert i > 0 ==> a[..i][0] == b[..i][0];
      }
    }
  }

  lemma {:induction false} TextOrder(a: string, b: string, c: string)
    ensures !TextBefore(a, a)
    ensures !TextBefore(a, b) && !TextBefore(b, a) ==> a == b
    ensures !TextBefore(b, a) && !TextBefore(c, b) ==> !TextBefore(c, a)
    decreases |a|
  {
    if a != "" {
      TextOrder(a[1..], if b == "" then "" else b[1..], if c == "" then "" else c[1..]);
      assert a == [a[0]] + a[1..];
      assert b != "" ==> b == [b[0]] + b[1..];
    }
  }

  lemma {:induction false} TextAsymmetric(a: string, b: string)
    ensures !(TextBefore(a, b) && TextBefore(b, a))
  {
    if a != "" && b != "" {
      TextAsymmetric(a[1..], b[1..]);
    }
  }

  predicate IsGreatest(keys: set<string>, k: string) {
    k in keys && forall other :: other in keys ==> !TextBefore(k, other)
  }

  lemma {:induction false} GreatestExists(keys: set<string>)
    requires keys != {}
    ensures exists k :: IsGreatest(keys, k)
  {
    var x :| x in keys;
    TextOrder(x, x, x);
    if keys == {x} {
      assert IsGreatest(keys, x);
    } else {
      var rest := keys - {x};
      assert rest != {};
      GreatestExists(rest);
      var k :| IsGreatest(rest, k);
      if !TextBefore(k, x) {
        assert IsGreatest(keys, k);
      } else {
        TextAsymmetric(k, x);
        forall other | other in rest
          ensures !TextBefore(x, other)
        {
          TextOrder(other, k, x);
        }
        assert IsGreatest(keys, x);
      }
    }
  }

  lemma GreatestIsOne(keys: set<string>, a: string, b: string)
    requires IsGreatest(keys, a) && IsGreatest(keys, b)
    ensures a == b
  {
    TextOrder(a, b, b);
  }

  function Greatest(keys: set<string>): (k: string)
    requires keys != {}
    ensures IsGreatest(keys, k)
  {
    GreatestExists(keys);
    assert forall a, b :: IsGreatest(keys, a) && IsGreatest(keys, b) ==> a == b by {
      forall a, b | IsGreatest(keys, a) && IsGreatest(keys, b)
        ensures a == b
      {
        GreatestIsOne(keys, a, b);
      }
    }
    var k :| k in keys && IsGreatest(keys, k);
    k
  }
}
