/**
 * The arithmetic of the stock ledger: how one transaction moves the stock of
 * one product (the `created` hook of the Transaction model calling
 * `Product::updateStock`) and the net effect of a run of transactions.
 */
module Ledger {
  import opened Entities
  import Seqs

  /** The change transaction `t` makes to the stock of product `id`. */
  function Signed(t: Txn, id: int): int
  {
    if t.productId != id then 0
    else match t.kind
      case StockIn => t.quantity
      case StockOut => -t.quantity
  }

  /** Net change to the stock of product `id` made by the transactions `h`, in order. */
  function Net(h: seq<Txn>, id: int): int
  {
    if h == [] then 0 else Net(h[..|h| - 1], id) + Signed(h[|h| - 1], id)
  }

  lemma NetAppend(h: seq<Txn>, t: Txn, id: int)
    ensures Net(h + [t], id) == Net(h, id) + Signed(t, id)
  {
    assert (h + [t])[..|h|] == h;
  }

  /** A stock_in of q followed by a stock_out of q on the same product restores its stock. */
  lemma InThenOutRestores(h: seq<Txn>, tin: Txn, tout: Txn, id: int)
    requires tin.kind == StockIn && tout.kind == StockOut
    requires tin.productId == tout.productId && tin.quantity == tout.quantity
    ensures Net(h + [tin, tout], id) == Net(h, id)
  {
    assert h + [tin, tout] == (h + [tin]) + [tout];
    NetAppend(h + [tin], tout, id);
    NetAppend(h, tin, id);
  }

  /** Number of transactions of type `kind` in `h`. */
  function CountKind(h: seq<Txn>, kind: TxnType): nat
  {
    if h == [] then 0
    else CountKind(h[..|h| - 1], kind) + (if h[|h| - 1].kind == kind then 1 else 0)
  }

  /** Sum of the quantities of the transactions of type `kind` in `h`. */
  function SumKind(h: seq<Txn>, kind: TxnType): int
  {
    if h == [] then 0
    else SumKind(h[..|h| - 1], kind) + (if h[|h| - 1].kind == kind then h[|h| - 1].quantity else 0)
  }

  /** The test "has type `kind`", as a filter. */
  function OfKind(kind: TxnType): Txn -> bool
  {
    (t: Txn) => t.kind == kind
  }

  /** Sum of the quantities of the transactions `h`. */
  function Total(h: seq<Txn>): int
  {
    if h == [] then 0 else Total(h[..|h| - 1]) + h[|h| - 1].quantity
  }

  /**
   * The per-type count and quantity sum are the length and the quantity sum of
   * the transactions of that type.
   */
  lemma {:induction false} KindsByFilter(h: seq<Txn>, kind: TxnType)
    ensures CountKind(h, kind) == |Seqs.Filter(h, OfKind(kind))|
    ensures SumKind(h, kind) == Total(Seqs.Filter(h, OfKind(kind)))
  {
    if h != [] {
      var h', t := h[..|h| - 1], h[|h| - 1];
      KindsByFilter(h', kind);
      var r := Seqs.Filter(h', OfKind(kind));
      if t.kind == kind {
        assert (r + [t])[..|r|] == r;
      }
    }
  }

  /** Every transaction is a stock_in or a stock_out, so the two counts add up to the total. */
  lemma {:induction false} CountsPartition(h: seq<Txn>)
    ensures CountKind(h, StockIn) + CountKind(h, StockOut) == |h|
  {
    if h != [] {
      CountsPartition(h[..|h| - 1]);
    }
  }

  /** The transactions of product `id`, in ledger order. */
  function OfProduct(h: seq<Txn>, id: int): (r: seq<Txn>)
    ensures forall i :: 0 <= i < |r| ==> r[i].productId == id
  {
    Seqs.Filter(h, (t: Txn) => t.productId == id)
  }

  /** A transaction appended to the history joins product `id`'s own history exactly when it is for `id`. */
  lemma OfProductAppend(h: seq<Txn>, t: Txn, id: int)
    ensures OfProduct(h + [t], id) == if t.productId == id then OfProduct(h, id) + [t] else OfProduct(h, id)
  {
    assert (h + [t])[..|h|] == h;
  }

  /**
   * The ledger identity: the net change to a product's stock is the sum of its
   * stock_in quantities minus the sum of its stock_out quantities.
   */
  lemma {:induction false} NetIsInMinusOut(h: seq<Txn>, id: int)
    ensures Net(h, id) == SumKind(OfProduct(h, id), StockIn) - SumKind(OfProduct(h, id), StockOut)
  {
    if h != [] {
      var h', t := h[..|h| - 1], h[|h| - 1];
      assert h == h' + [t];
      NetIsInMinusOut(h', id);
      OfProductAppend(h', t, id);
      if t.productId == id {
        var r' := OfProduct(h', id);
        assert (r' + [t])[..|r'|] == r';
      }
    }
  }
}
