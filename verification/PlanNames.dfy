/**
 The names of a finished plan's writes: the plan that the planner returns has
 its positions as ids, so the names that carry an id carry the position.
 */
module PlanNames {
  import opened MutationItems
  import opened MutationPlan
  import opened MutationOrder
  import opened MutationNames

  /** The planned items as writes of a root to a table. */
  function WritesOf(items: seq<Item>): (ws: seq<Write>)
    ensures |ws| == |items|
  {
    seq(|items|, i requires 0 <= i < |items| => Write(items[i].selID, items[i].table.name))
  }

  /** The name of an item's write, with its id where it needs a number. */
  function NameOf(items: seq<Item>, it: Item): string
    requires 0 <= it.id < |items|
  {
    if Multi(WritesOf(items), it.id) then it.table.name + "_" + Dec(it.id) else it.table.name
  }

  /**
   In a finished and re-indexed plan, two items have the same name exactly when a table of one is called like the other's
   numbered write; without such table names all items are named apart, and so are the result sets of different groups.
   */
  lemma PlanNamedApart(out: seq<Item>, next: int, mt: MType, i: nat, j: nat)
    requires Finished(out, next, mt) && i < |out| && j < |out| && i != j
    ensures var items := Reindexed(out);
      var ws := WritesOf(items);
      && items[i].id == i && items[j].id == j
      && (NameOf(items, items[i]) == NameOf(items, items[j]) <==> Clash(ws, i, j) || Clash(ws, j, i))
      && (NoSuffixes(ws) ==>
            && NameOf(items, items[i]) != NameOf(items, items[j])
            && (GroupOf(ws[i]) != GroupOf(ws[j]) ==> UnionName(ws, GroupOf(ws[i])) != UnionName(ws, GroupOf(ws[j]))))
  {
    var items := Reindexed(out);
    var ws := WritesOf(items);
    ReindexedValid(out, next, mt, i);
    ReindexedValid(out, next, mt, j);
    NamesMeet(ws, i, j);
    if NoSuffixes(ws) {
      WritesNamedApart(ws, i, j);
      if GroupOf(ws[i]) != GroupOf(ws[j]) {
        GroupsNamedApart(ws, GroupOf(ws[i]), GroupOf(ws[j]));
      }
    }
  }
}
