/**
 The mask of ended directions of a plug session (lib/plugsession.cc): four sides that can
 end, two endpoints removed from the poll, and the session destroyed.
 */
module PlugMask {
  type Mask = bv8
  const CLIENT_R: Mask := 0x01
  const SERVER_R: Mask := 0x02
  const CLIENT_W: Mask := 0x04
  const SERVER_W: Mask := 0x08
  const CLIENT_REMOVED: Mask := 0x10
  const SERVER_REMOVED: Mask := 0x20
  const DESTROYED: Mask := 0x40
  const EOF_ALL: Mask := 0x0f

  /** z_plug_update_eof_mask, without its calls. */
  function Update(mask: Mask, add: Mask): Mask {
    var a := mask | add;
    var b := if a & (CLIENT_R | CLIENT_W | CLIENT_REMOVED) == CLIENT_R | CLIENT_W then a | CLIENT_REMOVED else a;
    var c := if b & (SERVER_R | SERVER_W | SERVER_REMOVED) == SERVER_R | SERVER_W then b | SERVER_REMOVED else b;
    if c & (DESTROYED | CLIENT_REMOVED | SERVER_REMOVED) == CLIENT_REMOVED | SERVER_REMOVED then c | DESTROYED else c
  }

  function UpdateAll(adds: seq<Mask>): Mask {
    if adds == [] then 0 else Update(UpdateAll(adds[..|adds| - 1]), adds[|adds| - 1])
  }

  /** The mask that belongs to a set of ended sides: an endpoint is removed when both its sides have
      ended, the session destroyed when both endpoints are removed. */
  predicate Sealed(mask: Mask, ended: Mask) {
    && mask & EOF_ALL == ended
    && (mask & CLIENT_REMOVED != 0 <==> ended & CLIENT_R != 0 && ended & CLIENT_W != 0)
    && (mask & SERVER_REMOVED != 0 <==> ended & SERVER_R != 0 && ended & SERVER_W != 0)
    && (mask & DESTROYED != 0 <==> mask & CLIENT_REMOVED != 0 && mask & SERVER_REMOVED != 0)
    && mask & 0x80 == 0
  }

  function Union(adds: seq<Mask>): Mask {
    if adds == [] then 0 else Union(adds[..|adds| - 1]) | adds[|adds| - 1]
  }

  lemma UpdateSeals(mask: Mask, ended: Mask, add: Mask)
    requires Sealed(mask, ended) && add & EOF_ALL == add
    ensures Sealed(Update(mask, add), ended | add)
    ensures mask & Update(mask, add) == mask
  {
  }

  /** Over any order and repetition of events, the mask is the one of the sides ended so far. */
  lemma {:induction false} UpdateAllSeals(adds: seq<Mask>)
    requires forall a :: a in adds ==> a & EOF_ALL == a
    ensures Sealed(UpdateAll(adds), Union(adds))
  {
    if adds != [] {
      var init, last := adds[..|adds| - 1], adds[|adds| - 1];
      assert last in adds && forall a :: a in init ==> a in adds;
      UpdateAllSeals(init);
      UpdateSeals(UpdateAll(init), Union(init), last);
    }
  }

  lemma {:induction false} UnionCoversAt(adds: seq<Mask>, k: nat)
    requires k < |adds|
    ensures adds[k] & Union(adds) == adds[k]
  {
    var init, last := adds[..|adds| - 1], adds[|adds| - 1];
    var u := Union(init);
    assert Union(adds) == u | last;
    if k < |adds| - 1 {
      var a := adds[k];
      assert init[k] == a;
      UnionCoversAt(init, k);
      Widens(a, u, last);
    } else {
      Widens(last, last, u);
    }
  }

  lemma UnionCovers(adds: seq<Mask>, a: Mask)
    requires a in adds
    ensures a & Union(adds) == a
  {
    var k :| 0 <= k < |adds| && adds[k] == a;
    UnionCoversAt(adds, k);
  }

  lemma Widens(a: Mask, u: Mask, v: Mask)
    requires a & u == a
    ensures a & (u | v) == a && a & (v | u) == a
  {
  }

  lemma {:induction false} UnionWithin(xs: seq<Mask>, u: Mask)
    requires forall a :: a in xs ==> a & u == a
    ensures Union(xs) & u == Union(xs)
  {
    if xs != [] {
      var init, last := xs[..|xs| - 1], xs[|xs| - 1];
      assert last in xs && last & u == last;
      forall a | a in init ensures a & u == a {
        assert a in xs;
      }
      UnionWithin(init, u);
    }
  }

  lemma SealedUnique(m: Mask, n: Mask, e: Mask)
    requires Sealed(m, e) && Sealed(n, e)
    ensures m == n
  {
  }

  /** The final mask depends only on which events happened, not on their order or number. */
  lemma OrderIndependent(xs: seq<Mask>, ys: seq<Mask>)
    requires forall a :: a in xs ==> a & EOF_ALL == a
    requires forall a :: a in xs <==> a in ys
    ensures UpdateAll(xs) == UpdateAll(ys)
  {
    forall a | a in xs ensures a & Union(ys) == a { UnionCovers(ys, a); }
    forall a | a in ys ensures a & Union(xs) == a { UnionCovers(xs, a); }
    UnionWithin(xs, Union(ys));
    UnionWithin(ys, Union(xs));
    UpdateAllSeals(xs);
    UpdateAllSeals(ys);
    SealedUnique(UpdateAll(xs), UpdateAll(ys), Union(xs));
  }

  lemma WithinSides(a: Mask, u: Mask, mask: Mask)
    requires a & u == a && Sealed(mask, u)
    ensures a & EOF_ALL == a
  {
  }

  /** A mask that belongs to the sides ended by a history is the one its updates compute. */
  lemma SealedIsUpdateAll(mask: Mask, adds: seq<Mask>)
    requires Sealed(mask, Union(adds))
    ensures mask == UpdateAll(adds)
  {
    forall a | a in adds ensures a & EOF_ALL == a {
      UnionCovers(adds, a);
      WithinSides(a, Union(adds), mask);
    }
    UpdateAllSeals(adds);
    SealedUnique(mask, UpdateAll(adds), Union(adds));
  }

  lemma DestroyedExact(mask: Mask, ended: Mask)
    requires Sealed(mask, ended)
    ensures mask & DESTROYED != 0 <==> ended == EOF_ALL
  {
  }

  /** A history of events destroys the session exactly when it has ended all four sides. */
  lemma AllEnded(adds: seq<Mask>)
    requires forall a :: a in adds ==> a & EOF_ALL == a
    ensures UpdateAll(adds) & DESTROYED != 0 <==> Union(adds) == EOF_ALL
  {
    UpdateAllSeals(adds);
    DestroyedExact(UpdateAll(adds), Union(adds));
  }

  lemma UnionSnoc(adds: seq<Mask>, add: Mask)
    ensures Union(adds + [add]) == Union(adds) | add
  {
    assert (adds + [add])[..|adds|] == adds;
  }
}
