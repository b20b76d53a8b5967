/**
 * The inventory helpers of server.js: finding a slot, dropping empty slots, adding or taking
 * items, and using an item.
 *
 * The quantity view `Qty` (the first slot's count, 0 when there is none) is the partner every
 * list update is stated against.
 */
module Inventory {
  import opened Wrappers
  import opened Model
  import Rules

  /** `items.find(i => i.id === id)`, as the index of the first matching slot. */
  function FindSlot(items: seq<Slot>, id: string): (r: Option<nat>)
    ensures r.Some? ==> r.value < |items| && items[r.value].id == id
    ensures r.Some? ==> forall j :: 0 <= j < r.value ==> items[j].id != id
    ensures r.None? ==> forall j :: 0 <= j < |items| ==> items[j].id != id
  {
    if |items| == 0 then None
    else if items[0].id == id then Some(0)
    else match FindSlot(items[1..], id)
      case Some(k) => Some(k + 1)
      case None => None
  }

  /** How many of an item the list holds, read from the first slot with that id. */
  function Qty(items: seq<Slot>, id: string): int
  {
    if |items| == 0 then 0
    else if items[0].id == id then items[0].qty
    else Qty(items[1..], id)
  }

  predicate UniqueIds(items: seq<Slot>)
  {
    forall i, j :: 0 <= i < j < |items| ==> items[i].id != items[j].id
  }

  /** One slot per item, and no empty slot: what every update below keeps. */
  predicate WellFormed(items: seq<Slot>)
  {
    UniqueIds(items) && forall k :: 0 <= k < |items| ==> items[k].qty > 0
  }

  lemma {:induction false} QtyAtSlot(items: seq<Slot>, id: string)
    ensures FindSlot(items, id).Some? ==> Qty(items, id) == items[FindSlot(items, id).value].qty
    ensures FindSlot(items, id).None? ==> Qty(items, id) == 0
  {
    if |items| > 0 && items[0].id != id {
      QtyAtSlot(items[1..], id);
    }
  }

  /** Under unique ids a slot is found exactly at its own index. */
  lemma FindUnique(items: seq<Slot>, k: nat)
    requires UniqueIds(items) && k < |items|
    ensures FindSlot(items, items[k].id) == Some(k)
  {
    var r := FindSlot(items, items[k].id);
    assert r.Some?;
  }

  /** `items.filter(i => i.qty > 0)`. */
  function Compact(items: seq<Slot>): (r: seq<Slot>)
    ensures forall k :: 0 <= k < |r| ==> r[k].qty > 0
    ensures forall s :: s in r <==> s in items && s.qty > 0
    ensures |r| <= |items|
  {
    if |items| == 0 then []
    else (if items[0].qty > 0 then [items[0]] else []) + Compact(items[1..])
  }

  /** Dropping the empty slots keeps ids unique. */
  lemma {:induction false} CompactUnique(items: seq<Slot>)
    requires UniqueIds(items)
    ensures UniqueIds(Compact(items))
  {
    if |items| > 0 {
      var tail := items[1..];
      CompactUnique(tail);
      var rest := Compact(tail);
      forall j | 0 <= j < |rest|
        ensures rest[j].id != items[0].id
      {
        assert rest[j] in tail;
        var t :| 0 <= t < |tail| && tail[t] == rest[j];
        assert items[t + 1] == rest[j];
      }
    }
  }

  /** Dropping the empty slots reads every non-positive count as 0 and keeps the others. */
  lemma {:induction false} CompactQty(items: seq<Slot>, x: string)
    requires UniqueIds(items)
    ensures Qty(Compact(items), x) == Rules.Max(0, Qty(items, x))
  {
    if |items| > 0 {
      var tail := items[1..];
      CompactQty(tail, x);
      if x == items[0].id {
        assert FindSlot(tail, x).None?;
        QtyAtSlot(tail, x);
      }
      if items[0].qty > 0 {
        assert Compact(items) == [items[0]] + Compact(tail);
        QtyCons(items[0], Compact(tail), x);
      } else {
        assert Compact(items) == Compact(tail);
      }
    }
  }

  /** The count in a slot list with `s` in front. */
  lemma QtyCons(s: Slot, rest: seq<Slot>, x: string)
    ensures Qty([s] + rest, x) == if s.id == x then s.qty else Qty(rest, x)
  {
    assert ([s] + rest)[1..] == rest;
  }


  /** Two lists with the same ids, in the same order, find the same slots. */
  lemma {:induction false} FindSameIds(s: seq<Slot>, t: seq<Slot>, x: string)
    requires |s| == |t| && forall i :: 0 <= i < |s| ==> s[i].id == t[i].id
    ensures FindSlot(s, x) == FindSlot(t, x)
  {
    if |s| > 0 && s[0].id != x {
      FindSameIds(s[1..], t[1..], x);
    }
  }

  /**
   * `slot.qty -= n`, then drop every empty slot if this one ran out. With unique ids and only
   * this slot possibly empty, the result is well formed, this item's count becomes the new
   * count (or 0) and every other count is unchanged.
   */
  function TakeFromSlot(items: seq<Slot>, k: nat, n: int): (r: seq<Slot>)
    requires k < |items|
    ensures items[k].qty - n > 0 ==> r == items[k := items[k].(qty := items[k].qty - n)]
    ensures items[k].qty - n <= 0 ==> r == Compact(items[k := items[k].(qty := items[k].qty - n)])
    ensures UniqueIds(items) && (forall j :: 0 <= j < |items| && j != k ==> items[j].qty > 0) ==>
              && WellFormed(r)
              && Qty(r, items[k].id) == Rules.Max(0, items[k].qty - n)
              && forall x :: x != items[k].id ==> Qty(r, x) == Qty(items, x)
  {
    var s := items[k := items[k].(qty := items[k].qty - n)];
    TakeFromSlotCounts(items, k, n);
    if s[k].qty <= 0 then Compact(s) else s
  }

  lemma TakeFromSlotCounts(items: seq<Slot>, k: nat, n: int)
    requires k < |items|
    ensures var s := items[k := items[k].(qty := items[k].qty - n)];
            var r := if s[k].qty <= 0 then Compact(s) else s;
            UniqueIds(items) && (forall j :: 0 <= j < |items| && j != k ==> items[j].qty > 0) ==>
              && WellFormed(r)
              && Qty(r, items[k].id) == Rules.Max(0, items[k].qty - n)
              && forall x :: x != items[k].id ==> Qty(r, x) == Qty(items, x)
  {
    var s := items[k := items[k].(qty := items[k].qty - n)];
    if UniqueIds(items) && (forall j :: 0 <= j < |items| && j != k ==> items[j].qty > 0) {
      SetQtyCounts(items, k, n);
      if s[k].qty <= 0 {
        CompactCounts(s, items, k);
      }
    }
  }

  /** Overwriting one slot's count keeps the ids unique and changes only that item's count. */
  lemma SetQtyCounts(items: seq<Slot>, k: nat, n: int)
    requires k < |items| && UniqueIds(items)
    ensures var s := items[k := items[k].(qty := items[k].qty - n)];
            && UniqueIds(s)
            && forall x :: Qty(s, x) == (if x == items[k].id then items[k].qty - n else Qty(items, x))
  {
    var s := items[k := items[k].(qty := items[k].qty - n)];
    assert UniqueIds(s) by {
      assert forall i :: 0 <= i < |s| ==> s[i].id == items[i].id;
    }
    forall x
      ensures Qty(s, x) == (if x == items[k].id then items[k].qty - n else Qty(items, x))
    {
      FindSameIds(s, items, x);
      QtyAtSlot(s, x);
      QtyAtSlot(items, x);
      if x == items[k].id {
        FindUnique(items, k);
      } else if FindSlot(items, x).Some? {
        assert FindSlot(items, x).value != k;
      }
    }
  }

  /** Dropping the emptied slot `k` of `s` (a recount of `items`) leaves a well-formed inventory. */
  lemma CompactCounts(s: seq<Slot>, items: seq<Slot>, k: nat)
    requires k < |s| == |items| && UniqueIds(s) && s[k].qty <= 0 && s[k].id == items[k].id
    requires forall j :: 0 <= j < |s| && j != k ==> s[j].qty > 0
    requires forall x :: x != items[k].id ==> Qty(s, x) == Qty(items, x)
    ensures WellFormed(Compact(s))
    ensures Qty(Compact(s), items[k].id) == 0
    ensures forall x :: x != items[k].id ==> Qty(Compact(s), x) == Qty(items, x)
  {
    CompactUnique(s);
    CompactQty(s, items[k].id);
    QtyAtSlot(s, items[k].id);
    FindUnique(s, k);
    forall x | x != items[k].id
      ensures Qty(Compact(s), x) == Qty(items, x)
    {
      QtyAtSlot(s, x);
      CompactQty(s, x);
    }
  }

  /**
   * `addItemToUser`: add `qty` to the item's slot, creating an empty slot at the end first when
   * there is none; a slot that ends at or below zero is removed together with every other empty
   * slot.
   */
  function AddItemToUser(items: seq<Slot>, id: string, qty: int): (r: seq<Slot>)
    ensures FindSlot(items, id).None? && qty > 0 ==> r == items + [Slot(id, qty)]
    ensures WellFormed(items) ==>
              && WellFormed(r)
              && Qty(r, id) == Rules.Max(0, Qty(items, id) + qty)
              && forall x :: x != id ==> Qty(r, x) == Qty(items, x)
  {
    match FindSlot(items, id)
    case Some(k) =>
      QtyAtSlot(items, id);
      TakeFromSlot(items, k, -qty)
    case None =>
      var grown := items + [Slot(id, 0)];
      assert grown[|items|].id == id;
      assert forall x :: x != id ==> Qty(grown, x) == Qty(items, x) by {
        forall x | x != id
          ensures Qty(grown, x) == Qty(items, x)
        {
          FindAppend(items, Slot(id, 0), x);
        }
      }
      QtyAtSlot(items, id);
      TakeFromSlot(grown, |items|, -qty)
  }

  lemma {:induction false} FindAppend(items: seq<Slot>, s: Slot, x: string)
    requires x != s.id
    ensures Qty(items + [s], x) == Qty(items, x)
  {
    if |items| > 0 {
      assert (items + [s])[1..] == items[1..] + [s];
      FindAppend(items[1..], s, x);
    } else {
      assert (items + [s])[1..] == [];
    }
  }

  /**
   * Handing over `n` of an item from the giver's first slot for it: the giver's count falls by
   * `n`, the recipient's grows by `n`, every other count of either stays and both stay well
   * formed.
   */
  lemma GiveCounts(from: seq<Slot>, to: seq<Slot>, id: string, n: int)
    requires WellFormed(from) && WellFormed(to)
    requires FindSlot(from, id).Some? && from[FindSlot(from, id).value].qty >= n > 0
    ensures var f := TakeFromSlot(from, FindSlot(from, id).value, n);
            var t := AddItemToUser(to, id, n);
            && WellFormed(f) && WellFormed(t)
            && Qty(f, id) == Qty(from, id) - n && Qty(t, id) == Qty(to, id) + n
            && (forall x :: x != id ==> Qty(f, x) == Qty(from, x) && Qty(t, x) == Qty(to, x))
  {
    QtyAtSlot(from, id);
    QtyAtSlot(to, id);
  }

  /** Handing items to oneself leaves every count as it was. */
  lemma GiveToSelfCounts(items: seq<Slot>, id: string, n: int)
    requires WellFormed(items)
    requires FindSlot(items, id).Some? && items[FindSlot(items, id).value].qty >= n > 0
    ensures var r := AddItemToUser(TakeFromSlot(items, FindSlot(items, id).value, n), id, n);
            WellFormed(r) && forall x :: Qty(r, x) == Qty(items, x)
  {
    GiveCounts(items, items, id, n);
    var f := TakeFromSlot(items, FindSlot(items, id).value, n);
    QtyAtSlot(f, id);
  }

  datatype UseResult =
    | NoArgument | NotOwned | UnknownItem | EmptySkillbook | AlreadyLearned
    | SkillLearned | Consumed | NoUseEffect

  /**
   * Using up one of item `id`: the inventory stays well formed, the item's count falls by one
   * and every other count is kept.
   */
  ghost predicate SpentOne(before: seq<Slot>, after: seq<Slot>, id: string)
  {
    WellFormed(before) ==>
      && WellFormed(after)
      && Qty(after, id) == Qty(before, id) - 1
      && forall x :: x != id ==> Qty(after, x) == Qty(before, x)
  }

  /**
   * `useItemCommand` from `u` to `r`. The outcome is decided by the argument, the first slot
   * holding the item, the catalogue entry and its kind. A skill book teaches its skill, a
   * consumable heals (default 30, capped at max hp); either uses up one of the item from that
   * slot. Every other outcome changes nothing.
   */
  ghost predicate Used(u: Character, itemArg: Option<string>, catalog: seq<ItemDef>, r: Character, res: UseResult)
  {
    if itemArg.None? then res == NoArgument && r == u
    else
      var id := itemArg.value;
      var slot := FindSlot(u.items, id);
      var base := ItemById(catalog, id);
      if slot.None? || u.items[slot.value].qty <= 0 then res == NotOwned && r == u
      else if base.None? then res == UnknownItem && r == u
      else match base.value.kind
        case Skillbook(skillId) =>
          if skillId.None? || skillId.value == "" then res == EmptySkillbook && r == u
          else if skillId.value in u.skills then res == AlreadyLearned && r == u
          else
            && res == SkillLearned
            && r == u.(skills := u.skills + [skillId.value], items := TakeFromSlot(u.items, slot.value, 1))
            && SpentOne(u.items, r.items, id)
        case Consumable(healAmount) =>
          && res == Consumed
          && r == u.(hp := Rules.Min(u.maxHp, u.hp + Rules.Or(healAmount, 30)),
                     items := TakeFromSlot(u.items, slot.value, 1))
          && SpentOne(u.items, r.items, id)
        case OtherItem => res == NoUseEffect && r == u
  }

  /** Owning an item is having a positive count of it. */
  lemma OwnedIffQty(items: seq<Slot>, id: string)
    ensures (FindSlot(items, id).Some? && items[FindSlot(items, id).value].qty > 0) <==> Qty(items, id) > 0
  {
    QtyAtSlot(items, id);
  }

  /** `useItemCommand` on one character's record; see `Used`. */
  method UseItem(u: Character, itemArg: Option<string>, catalog: seq<ItemDef>) returns (r: Character, res: UseResult)
    ensures Used(u, itemArg, catalog, r, res)
  {
    r := u;
    if itemArg.None? {
      return u, NoArgument;
    }
    var itemId := itemArg.value;
    var found := FindSlot(u.items, itemId);
    QtyAtSlot(u.items, itemId);
    if found.None? || u.items[found.value].qty <= 0 {
      return u, NotOwned;
    }
    var k := found.value;
    var base := ItemById(catalog, itemId);
    if base.None? {
      return u, UnknownItem;
    }
    match base.value.kind {
      case Skillbook(skillId) =>
        if skillId.None? || skillId.value == "" {
          return u, EmptySkillbook;
        }
        if skillId.value in u.skills {
          return u, AlreadyLearned;
        }
        r := r.(skills := r.skills + [skillId.value]);
        r := r.(items := TakeFromSlot(r.items, k, 1));
        res := SkillLearned;
      case Consumable(healAmount) =>
        var heal := Rules.Or(healAmount, 30);
        r := r.(hp := Rules.Min(r.maxHp, r.hp + heal));
        r := r.(items := TakeFromSlot(r.items, k, 1));
        res := Consumed;
      case OtherItem =>
        return u, NoUseEffect;
    }
  }
}
