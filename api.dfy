/**
 * The request body `updatePersonalInfo` posts: the object literal
 * `{ user_name: "dragon_hacks", [field]: value }`.
 */
module Api {

  /** The fixed identity every write addresses. */
  const IdentityKey: string := "user_name"
  const IdentityValue: string := "dragon_hacks"

  /** Property `i` is the last one of `props` that assigns its key. */
  predicate IsLastFor(props: seq<(string, string)>, i: int)
    requires 0 <= i < |props|
  {
    forall j :: i < j < |props| ==> props[j].0 != props[i].0
  }

  /**
   * A JavaScript object literal over string keys, evaluated left to right: each
   * property assigns its key, so a later property overrides an earlier one with the same key.
   */
  function ObjectLiteral(props: seq<(string, string)>): map<string, string> {
    if props == [] then map[]
    else ObjectLiteral(props[..|props| - 1])[props[|props| - 1].0 := props[|props| - 1].1]
  }

  /** The literal's keys are exactly the keys of its properties. */
  lemma {:induction false} ObjectLiteralKeys(props: seq<(string, string)>, k: string)
    ensures k in ObjectLiteral(props) <==> exists i :: 0 <= i < |props| && props[i].0 == k
  {
    if props != [] {
      var n := |props| - 1;
      var init := props[..n];
      ObjectLiteralKeys(init, k);
      if k in ObjectLiteral(props) && k != props[n].0 {
        var i :| 0 <= i < n && init[i].0 == k;
        assert props[i] == init[i];
      }
      if exists i :: 0 <= i < |props| && props[i].0 == k {
        var i :| 0 <= i < |props| && props[i].0 == k;
        if i < n {
          assert init[i] == props[i];
        }
      }
    }
  }

  /** Each key holds the value of the last property that assigns it. */
  lemma {:induction false} ObjectLiteralLastWins(props: seq<(string, string)>, i: nat)
    requires i < |props| && IsLastFor(props, i)
    ensures props[i].0 in ObjectLiteral(props) && ObjectLiteral(props)[props[i].0] == props[i].1
  {
    var n := |props| - 1;
    if i < n {
      var init := props[..n];
      assert init[i] == props[i];
      assert props[n].0 != props[i].0;
      assert IsLastFor(init, i) by {
        forall j | i < j < |init| ensures init[j].0 != init[i].0 {
          assert init[j] == props[j];
        }
      }
      ObjectLiteralLastWins(init, i);
    }
  }

  /** A two-property literal has exactly the two keys (one, when they coincide). */
  lemma TwoPropertyKeys(p: (string, string), q: (string, string))
    ensures ObjectLiteral([p, q]).Keys == {p.0, q.0}
  {
    forall k ensures k in ObjectLiteral([p, q]) <==> k in {p.0, q.0} {
      ObjectLiteralKeys([p, q], k);
      assert [p, q][0] == p && [p, q][1] == q;
    }
  }

  /** The payload built for a write of `value` to `field`. */
  function Payload(field: string, value: string): (m: map<string, string>)
    ensures IdentityKey in m
    ensures field in m && m[field] == value
    ensures m.Keys == {IdentityKey, field}
    ensures field != IdentityKey ==> m[IdentityKey] == IdentityValue
  {
    var props := [(IdentityKey, IdentityValue), (field, value)];
    TwoPropertyKeys(props[0], props[1]);
    ObjectLiteralLastWins(props, 1);
    if field != IdentityKey then
      ObjectLiteralLastWins(props, 0);
      ObjectLiteral(props)
    else
      ObjectLiteral(props)
  }

  /** Writing the identity field itself: the computed key comes later and wins. */
  lemma PayloadIdentityOverride(value: string)
    ensures Payload(IdentityKey, value) == map[IdentityKey := value]
  {
  }
}
