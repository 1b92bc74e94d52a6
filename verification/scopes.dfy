/**
 * The scope chain: each scope maps names to a (type, value) binding and may
 * point to the enclosing scope. Lookups and updates fall through to the
 * parent when a name is not bound locally. The value slot is generic; the
 * generator stores an IR value there, which this model leaves abstract.
 */
module Scopes {
  import opened Wrappers
  import opened Types

  datatype Entry<V> = Entry(ty: AstType, value: V)

  datatype Scope<V> = Scope(names: map<string, Entry<V>>, parent: Option<Scope<V>>)

  /** The maps of the chain, innermost first. */
  function Frames<V>(s: Scope<V>): (fs: seq<map<string, Entry<V>>>)
    ensures |fs| >= 1 && fs[0] == s.names
    decreases s
  {
    [s.names] + match s.parent
      case None => []
      case Some(p) => Frames(p)
  }

  /** A scope with no bindings and no parent. */
  function Root<V>(): (s: Scope<V>)
    ensures s.parent.None? && Frames(s) == [map[]]
  {
    Scope(map[], None)
  }

  /** A scope with no bindings whose parent is `p`. */
  function ChildOf<V>(p: Scope<V>): (s: Scope<V>)
    ensures Frames(s) == [map[]] + Frames(p)
  {
    Scope(map[], Some(p))
  }

  function GetParent<V>(s: Scope<V>): Option<Scope<V>> {
    s.parent
  }

  /** The binding `name` resolves to: the one in the nearest scope that binds it. */
  function Lookup<V>(s: Scope<V>, name: string): Option<Entry<V>>
    decreases s
  {
    if name in s.names then Some(s.names[name])
    else match s.parent
      case None => None
      case Some(p) => Lookup(p, name)
  }

  /** Binds `name` in this scope, replacing a binding of the same name here. */
  function Add<V>(s: Scope<V>, name: string, ty: AstType, value: V): (s': Scope<V>)
    ensures Lookup(s', name) == Some(Entry(ty, value))
    ensures forall n :: n != name ==> Lookup(s', n) == Lookup(s, n)
    ensures s'.parent == s.parent
    ensures |Frames(s')| == |Frames(s)| && Frames(s')[1..] == Frames(s)[1..]
  {
    s.(names := s.names[name := Entry(ty, value)])
  }

  /**
   * Replaces the value of the nearest binding of `name`, keeping its type;
   * does nothing when no scope of the chain binds `name`.
   */
  function SetValue<V>(s: Scope<V>, name: string, value: V): Scope<V>
    decreases s
  {
    if name in s.names then s.(names := s.names[name := Entry(s.names[name].ty, value)])
    else match s.parent
      case None => s
      case Some(p) => s.(parent := Some(SetValue(p, name, value)))
  }

  /** The nearest-scope rule stated over the list of frames. */
  lemma {:induction false} LookupIsNearest<V>(s: Scope<V>, name: string)
    ensures Lookup(s, name).None? ==>
      forall i :: 0 <= i < |Frames(s)| ==> name !in Frames(s)[i]
    ensures Lookup(s, name).Some? ==>
      exists i :: 0 <= i < |Frames(s)| && name in Frames(s)[i]
        && Lookup(s, name).value == Frames(s)[i][name]
        && forall j :: 0 <= j < i ==> name !in Frames(s)[j]
    decreases s
  {
    var fs := Frames(s);
    if name in s.names {
      assert name in fs[0];
    } else {
      match s.parent
      case None =>
        assert |fs| == 1;
      case Some(p) =>
        LookupIsNearest(p, name);
        var ps := Frames(p);
        assert fs == [s.names] + ps;
        assert forall i :: 1 <= i < |fs| ==> fs[i] == ps[i - 1];
        if Lookup(p, name).Some? {
          var k :| 0 <= k < |ps| && name in ps[k] && Lookup(p, name).value == ps[k][name]
            && forall j :: 0 <= j < k ==> name !in ps[j];
          assert name in fs[k + 1];
          assert forall j :: 0 <= j < k + 1 ==> name !in fs[j] by {
            forall j | 0 <= j < k + 1 ensures name !in fs[j] {
              if j > 0 { assert fs[j] == ps[j - 1]; }
            }
          }
        } else {
          forall i | 0 <= i < |fs| ensures name !in fs[i] {
            if i > 0 { assert fs[i] == ps[i - 1]; }
          }
        }
    }
  }

  /** A child's binding shadows the parent's; popping back to the parent shows the outer one again. */
  lemma ShadowingIsUndoneByPop<V>(p: Scope<V>, name: string, ty: AstType, value: V)
    ensures Lookup(Add(ChildOf(p), name, ty, value), name) == Some(Entry(ty, value))
    ensures GetParent(Add(ChildOf(p), name, ty, value)) == Some(p)
    ensures forall n :: n != name ==> Lookup(Add(ChildOf(p), name, ty, value), n) == Lookup(p, n)
  {
  }

  /** The nearest binding of `name` gets the new value and keeps its type. */
  lemma {:induction false} SetValueUpdatesNearest<V>(s: Scope<V>, name: string, value: V)
    ensures Lookup(s, name).Some? ==>
      Lookup(SetValue(s, name, value), name) == Some(Entry(Lookup(s, name).value.ty, value))
    ensures Lookup(s, name).None? ==> SetValue(s, name, value) == s
    decreases s
  {
    if name !in s.names {
      match s.parent
      case None =>
      case Some(p) =>
        SetValueUpdatesNearest(p, name, value);
    }
  }

  /** Every other name resolves as before, and the chain keeps its length and domains. */
  lemma {:induction false} SetValueFramesOthers<V>(s: Scope<V>, name: string, value: V)
    ensures forall n :: n != name ==> Lookup(SetValue(s, name, value), n) == Lookup(s, n)
    ensures |Frames(SetValue(s, name, value))| == |Frames(s)|
    ensures forall i :: 0 <= i < |Frames(s)| ==>
      Frames(SetValue(s, name, value))[i].Keys == Frames(s)[i].Keys
    decreases s
  {
    var s' := SetValue(s, name, value);
    if name !in s.names {
      match s.parent
      case None =>
      case Some(p) =>
        SetValueFramesOthers(p, name, value);
        var p' := SetValue(p, name, value);
        assert s' == s.(parent := Some(p'));
        assert Frames(s') == [s.names] + Frames(p');
        assert Frames(s) == [s.names] + Frames(p);
        forall n | n != name ensures Lookup(s', n) == Lookup(s, n) {
          if n !in s.names {
            assert Lookup(s', n) == Lookup(p', n);
          }
        }
        forall i | 0 <= i < |Frames(s)| ensures Frames(s')[i].Keys == Frames(s)[i].Keys {
          if i > 0 {
            assert Frames(s')[i] == Frames(p')[i - 1];
            assert Frames(s)[i] == Frames(p)[i - 1];
          }
        }
    }
  }

  /** A fresh scope has no parent, and a child's parent is the scope it was made from. */
  lemma ParentOfFreshScopes<V>(p: Scope<V>)
    ensures GetParent(Root<V>()).None?
    ensures GetParent(ChildOf(p)) == Some(p)
    ensures forall n :: Lookup(Root<V>(), n).None?
    ensures forall n :: Lookup(ChildOf(p), n) == Lookup(p, n)
  {
  }
}
