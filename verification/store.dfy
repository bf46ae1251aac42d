/**
 * The two stored collections, `mergeitem` and `mergetarget`, and the commands that create
 * and delete their documents: a new merge item with its original target, a new target
 * for an item, deleting one target, and deleting an item together with all its targets.
 * A stored item refers to its targets by id, in order.
 */
module Store {
  import opened Wrappers
  import opened Text
  import opened Entities
  import opened MergeItems

  /** A stored merge item: its name and the ids of its targets, in display order. */
  datatype ItemRecord = ItemRecord(name: NString, targetIds: seq<int>)

  /** The `mergeitem` and `mergetarget` collections, each keyed by `ObjectId`. */
  datatype Database = Database(items: map<int, ItemRecord>, targets: map<int, MergeTarget>)

  /**
   * The shape the commands keep: every stored target is stored under its own id, every
   * reference of an item names a stored target, and no target is referenced twice (by two
   * items, or twice by one).
   */
  predicate WellFormed(db: Database) {
    && (forall k :: k in db.targets ==> db.targets[k].objectId == k)
    && (forall k, i :: k in db.items && 0 <= i < |db.items[k].targetIds| ==> db.items[k].targetIds[i] in db.targets)
    && (forall k1, k2, i, j ::
          (k1 in db.items && k2 in db.items && 0 <= i < |db.items[k1].targetIds| && 0 <= j < |db.items[k2].targetIds| &&
           db.items[k1].targetIds[i] == db.items[k2].targetIds[j]) ==> k1 == k2 && i == j)
  }

  /** Every finite set of integers that is not empty has a largest element. */
  lemma {:induction false} LargestExists(s: set<int>)
    requires exists k :: k in s
    ensures exists m :: m in s && forall y :: y in s ==> y <= m
    decreases |s|
  {
    var x :| x in s;
    var rest := s - {x};
    if exists k :: k in rest {
      LargestExists(rest);
      var m :| m in rest && forall y :: y in rest ==> y <= m;
      var top := if x <= m then m else x;
      forall y | y in s ensures y <= top {
        if y != x { assert y in rest; }
      }
      assert top in s;
    } else {
      assert forall y :: y in s ==> y <= x;
    }
  }

  /** The largest key of a collection. */
  function Largest(s: set<int>): (m: int)
    requires exists k :: k in s
    ensures m in s && forall y :: y in s ==> y <= m
  {
    LargestExists(s);
    var m :| m in s && forall y :: y in s ==> y <= m; m
  }

  /** The automatic id an insert assigns: one more than the largest id in the collection, 1 in an empty one. */
  function NextId(keys: set<int>): (id: int)
    ensures id !in keys && id >= 1
    ensures forall k :: k in keys ==> k < id
  {
    if exists k :: k in keys then (if Largest(keys) < 1 then 1 else Largest(keys) + 1) else 1
  }

  /** The targets an item refers to, read back in order (the `Include` of its references). */
  function LoadTargets(db: Database, ids: seq<int>): (r: seq<MergeTarget>)
    requires forall i :: 0 <= i < |ids| ==> ids[i] in db.targets
    ensures |r| == |ids| && forall i :: 0 <= i < |ids| ==> r[i] == db.targets[ids[i]]
  {
    seq(|ids|, i requires 0 <= i < |ids| => db.targets[ids[i]])
  }

  /** A stored item as the window shows it, with its targets and no last error. */
  function Load(db: Database, id: int): (r: MergeItem)
    requires WellFormed(db) && id in db.items
    ensures r.objectId == id && r.name == db.items[id].name && r.lastError.None?
    ensures TargetIds(r.targets) == db.items[id].targetIds
  {
    var ids := db.items[id].targetIds;
    var ts := LoadTargets(db, ids);
    assert |TargetIds(ts)| == |ids| && forall i :: 0 <= i < |ids| ==> TargetIds(ts)[i] == ids[i];
    MergeItem(id, db.items[id].name, ts, None)
  }

  /** `new MergeTarget()` given its id: every text field null, not original, completion undecided. */
  function BlankTarget(id: int): MergeTarget {
    MergeTarget(id, None, None, None, false, None, None, None, None)
  }

  /**
   * `CreateMergeItem()`: insert an item named "New Merge Item", insert a target that is
   * original and not completed, attach it, and save. Every existing document is kept.
   */
  function CreateMergeItem(db: Database): (r: (Database, int))
    ensures r.1 !in db.items && r.0.items.Keys == db.items.Keys + {r.1}
    ensures forall k :: k in db.items ==> r.0.items[k] == db.items[k]
    ensures r.0.items[r.1].name == Some(NewItemName) && |r.0.items[r.1].targetIds| == 1
    ensures var id := r.0.items[r.1].targetIds[0];
            && id !in db.targets
            && r.0.targets.Keys == db.targets.Keys + {id}
            && r.0.targets[id] == BlankTarget(id).(isOriginal := true, isCompleted := Some(false))
    ensures forall k :: k in db.targets ==> r.0.targets[k] == db.targets[k]
  {
    var itemId := NextId(db.items.Keys);
    var targetId := NextId(db.targets.Keys);
    var target := BlankTarget(targetId).(isOriginal := true, isCompleted := Some(false));
    (Database(db.items[itemId := ItemRecord(Some(NewItemName), [targetId])], db.targets[targetId := target]), itemId)
  }

  /**
   * Creating an item keeps the database well formed, and the item loads with exactly one
   * target, which is original and not completed.
   */
  lemma CreateKeepsWellFormed(db: Database)
    requires WellFormed(db)
    ensures WellFormed(CreateMergeItem(db).0)
    ensures var r := CreateMergeItem(db);
            var item := Load(r.0, r.1);
            && item.name == Some(NewItemName)
            && |item.targets| == 1
            && item.targets[0].isOriginal && item.targets[0].isCompleted == Some(false)
            && AtMostOneOriginal(item.targets)
  {
    var r := CreateMergeItem(db);
    var tid := r.0.items[r.1].targetIds[0];
    forall k1, k2, i, j | k1 in r.0.items && k2 in r.0.items && 0 <= i < |r.0.items[k1].targetIds| &&
                          0 <= j < |r.0.items[k2].targetIds| && r.0.items[k1].targetIds[i] == r.0.items[k2].targetIds[j]
      ensures k1 == k2 && i == j
    {
      if k1 != r.1 && k2 != r.1 {
        assert r.0.items[k1] == db.items[k1] && r.0.items[k2] == db.items[k2];
      }
    }
  }

  /**
   * `CreateMergeTarget()`: insert a blank target and append it to the item's list; the
   * item's stored references change only when the item is saved.
   */
  function CreateMergeTarget(db: Database, item: MergeItem): (r: (Database, MergeItem))
    ensures r.0.items == db.items
    ensures forall k :: k in db.targets ==> k in r.0.targets && r.0.targets[k] == db.targets[k]
    ensures |r.1.targets| == |item.targets| + 1 && r.1.targets[..|item.targets|] == item.targets
    ensures var t := r.1.targets[|item.targets|];
            && t.objectId !in db.targets
            && r.0.targets.Keys == db.targets.Keys + {t.objectId}
            && r.0.targets[t.objectId] == t
            && t == BlankTarget(t.objectId)
    ensures r.1 == item.(targets := r.1.targets)
    ensures AtMostOneOriginal(item.targets) ==> AtMostOneOriginal(r.1.targets)
  {
    var t := BlankTarget(NextId(db.targets.Keys));
    var targets := item.targets + [t];
    assert targets[..|item.targets|] == item.targets;
    (db.(targets := db.targets[t.objectId := t]), item.(targets := targets))
  }

  /**
   * `DeleteMergeTarget(grid)`: with a target of the item selected (by its position), it
   * leaves the item's list and its document is deleted; with none selected, nothing happens.
   */
  function DeleteMergeTarget(db: Database, item: MergeItem, selected: Option<nat>): (r: (Database, MergeItem))
    ensures selected.None? || selected.value >= |item.targets| ==> r == (db, item)
    ensures selected.Some? && selected.value < |item.targets| ==>
              var k := selected.value;
              && r.1 == item.(targets := item.targets[..k] + item.targets[k + 1..])
              && r.0.items == db.items
              && r.0.targets == db.targets - {item.targets[k].objectId}
    ensures AtMostOneOriginal(item.targets) ==> AtMostOneOriginal(r.1.targets)
  {
    if selected.None? || selected.value >= |item.targets| then (db, item)
    else
      var k := selected.value;
      var rest := item.targets[..k] + item.targets[k + 1..];
      assert forall i :: 0 <= i < |rest| ==> rest[i] == item.targets[if i < k then i else i + 1];
      (db.(targets := db.targets - {item.targets[k].objectId}), item.(targets := rest))
  }

  /** One write of the delete cascade. */
  datatype Deletion = DeleteTarget(targetId: int) | DeleteItem(itemId: int)

  /** The writes `Delete()` issues: each of the item's targets in list order, then the item. */
  function DeleteOps(item: MergeItem): (ops: seq<Deletion>)
    ensures |ops| == |item.targets| + 1
    ensures forall i :: 0 <= i < |item.targets| ==> ops[i] == DeleteTarget(item.targets[i].objectId)
    ensures ops[|item.targets|] == DeleteItem(item.objectId)
  {
    seq(|item.targets|, i requires 0 <= i < |item.targets| => DeleteTarget(item.targets[i].objectId)) + [DeleteItem(item.objectId)]
  }

  /** Run deletions in order; deleting an id that is not stored does nothing. */
  function Apply(db: Database, ops: seq<Deletion>): Database
    decreases |ops|
  {
    if |ops| == 0 then db
    else
      var next := match ops[0]
                  case DeleteTarget(id) => db.(targets := db.targets - {id})
                  case DeleteItem(id) => db.(items := db.items - {id});
      Apply(next, ops[1..])
  }

  /** The ids a run of deletions names, by collection. */
  function DeletedTargetIds(ops: seq<Deletion>): set<int> {
    set i | 0 <= i < |ops| && ops[i].DeleteTarget? :: ops[i].targetId
  }

  function DeletedItemIds(ops: seq<Deletion>): set<int> {
    set i | 0 <= i < |ops| && ops[i].DeleteItem? :: ops[i].itemId
  }

  /** Running deletions removes exactly the ids they name from each collection and changes nothing else. */
  lemma {:induction false} ApplyRemoves(db: Database, ops: seq<Deletion>)
    ensures Apply(db, ops) == Database(db.items - DeletedItemIds(ops), db.targets - DeletedTargetIds(ops))
    decreases |ops|
  {
    if |ops| > 0 {
      var next := match ops[0]
                  case DeleteTarget(id) => db.(targets := db.targets - {id})
                  case DeleteItem(id) => db.(items := db.items - {id});
      ApplyRemoves(next, ops[1..]);
      assert DeletedTargetIds(ops) == (if ops[0].DeleteTarget? then {ops[0].targetId} else {}) + DeletedTargetIds(ops[1..]) by {
        forall x | x in DeletedTargetIds(ops)
          ensures x in (if ops[0].DeleteTarget? then {ops[0].targetId} else {}) + DeletedTargetIds(ops[1..])
        {
          var i :| 0 <= i < |ops| && ops[i].DeleteTarget? && ops[i].targetId == x;
          if i > 0 { assert ops[1..][i - 1] == ops[i]; }
        }
        forall x | x in DeletedTargetIds(ops[1..]) ensures x in DeletedTargetIds(ops) {
          var i :| 0 <= i < |ops[1..]| && ops[1..][i].DeleteTarget? && ops[1..][i].targetId == x;
          assert ops[i + 1] == ops[1..][i];
        }
      }
      assert DeletedItemIds(ops) == (if ops[0].DeleteItem? then {ops[0].itemId} else {}) + DeletedItemIds(ops[1..]) by {
        forall x | x in DeletedItemIds(ops)
          ensures x in (if ops[0].DeleteItem? then {ops[0].itemId} else {}) + DeletedItemIds(ops[1..])
        {
          var i :| 0 <= i < |ops| && ops[i].DeleteItem? && ops[i].itemId == x;
          if i > 0 { assert ops[1..][i - 1] == ops[i]; }
        }
        forall x | x in DeletedItemIds(ops[1..]) ensures x in DeletedItemIds(ops) {
          var i :| 0 <= i < |ops[1..]| && ops[1..][i].DeleteItem? && ops[1..][i].itemId == x;
          assert ops[i + 1] == ops[1..][i];
        }
      }
    }
  }

  /**
   * `Delete()`: after the confirmation, every target of the item and then the item itself
   * are deleted, and the window is told to reload; without it nothing happens. The second
   * component says whether the item was deleted.
   */
  function Delete(db: Database, item: MergeItem, confirmed: bool): (r: (Database, bool))
    ensures !confirmed ==> r == (db, false)
    ensures confirmed ==>
              && r.1
              && r.0.items == db.items - {item.objectId}
              && r.0.targets == db.targets - (set i | 0 <= i < |item.targets| :: item.targets[i].objectId)
  {
    if !confirmed then (db, false)
    else
      var ops := DeleteOps(item);
      ApplyRemoves(db, ops);
      assert DeletedItemIds(ops) == {item.objectId} by {
        forall x | x in DeletedItemIds(ops) ensures x == item.objectId {
          var i :| 0 <= i < |ops| && ops[i].DeleteItem? && ops[i].itemId == x;
          assert i == |item.targets|;
        }
        assert ops[|item.targets|].DeleteItem?;
      }
      assert DeletedTargetIds(ops) == (set i | 0 <= i < |item.targets| :: item.targets[i].objectId) by {
        forall x | x in DeletedTargetIds(ops) ensures x in (set i | 0 <= i < |item.targets| :: item.targets[i].objectId) {
          var i :| 0 <= i < |ops| && ops[i].DeleteTarget? && ops[i].targetId == x;
          assert i < |item.targets|;
        }
        forall i | 0 <= i < |item.targets| ensures item.targets[i].objectId in DeletedTargetIds(ops) {
          assert ops[i].DeleteTarget?;
        }
      }
      (Apply(db, ops), true)
  }

  /**
   * The delete cascade keeps the database well formed: deleting a loaded item removes it
   * and every target it referred to, and no other item loses a target.
   */
  lemma DeleteKeepsWellFormed(db: Database, id: int)
    requires WellFormed(db) && id in db.items
    ensures var r := Delete(db, Load(db, id), true).0;
            && WellFormed(r)
            && id !in r.items
            && (forall i :: 0 <= i < |db.items[id].targetIds| ==> db.items[id].targetIds[i] !in r.targets)
            && (forall k :: k in r.items ==> r.items[k] == db.items[k])
  {
    var item := Load(db, id);
    var r := Delete(db, item, true).0;
    var gone := set i | 0 <= i < |item.targets| :: item.targets[i].objectId;
    forall i | 0 <= i < |db.items[id].targetIds| ensures db.items[id].targetIds[i] in gone {
      assert TargetIds(item.targets)[i] == db.items[id].targetIds[i];
    }
    forall k, i | k in r.items && 0 <= i < |r.items[k].targetIds| ensures r.items[k].targetIds[i] in r.targets {
      var x := r.items[k].targetIds[i];
      forall j | 0 <= j < |item.targets| ensures item.targets[j].objectId != x {
        assert TargetIds(item.targets)[j] == db.items[id].targetIds[j];
      }
    }
  }

  /** Save one target: `Update` rewrites a stored document and never inserts one. */
  function UpdateTarget(db: Database, t: MergeTarget): (r: Database)
    ensures r.items == db.items && r.targets.Keys == db.targets.Keys
    ensures t.objectId in db.targets ==> r.targets == db.targets[t.objectId := t]
    ensures t.objectId !in db.targets ==> r == db
  {
    if t.objectId in db.targets then db.(targets := db.targets[t.objectId := t]) else db
  }

  /** Update each target in list order. */
  function SaveTargets(db: Database, ts: seq<MergeTarget>): (r: Database)
    ensures r.items == db.items && r.targets.Keys == db.targets.Keys
    ensures forall k :: k in db.targets && (forall i :: 0 <= i < |ts| ==> ts[i].objectId != k) ==> r.targets[k] == db.targets[k]
    decreases |ts|
  {
    if |ts| == 0 then db
    else
      var r := SaveTargets(UpdateTarget(db, ts[0]), ts[1..]);
      assert forall i :: 0 <= i < |ts| - 1 ==> ts[1..][i] == ts[i + 1];
      r
  }

  /** `MergeItem.Save()`: every target is updated in list order, then the item with its references. */
  function Save(db: Database, item: MergeItem): (r: Database)
    ensures r.items.Keys == db.items.Keys && r.targets.Keys == db.targets.Keys
    ensures item.objectId in db.items ==> r.items[item.objectId] == ItemRecord(item.name, TargetIds(item.targets))
    ensures forall k :: k in db.items && k != item.objectId ==> r.items[k] == db.items[k]
    ensures forall k :: k in db.targets && (forall i :: 0 <= i < |item.targets| ==> item.targets[i].objectId != k) ==>
              r.targets[k] == db.targets[k]
  {
    var db1 := SaveTargets(db, item.targets);
    if item.objectId in db1.items then db1.(items := db1.items[item.objectId := ItemRecord(item.name, TargetIds(item.targets))])
    else db1
  }

  /** Saving targets that are all stored and distinct writes each of them back as it is in the list. */
  lemma {:induction false} SaveWritesTargets(db: Database, ts: seq<MergeTarget>)
    requires forall i :: 0 <= i < |ts| ==> ts[i].objectId in db.targets
    requires forall i, j :: 0 <= i < j < |ts| ==> ts[i].objectId != ts[j].objectId
    ensures forall i :: 0 <= i < |ts| ==> SaveTargets(db, ts).targets[ts[i].objectId] == ts[i]
    decreases |ts|
  {
    if |ts| > 0 {
      var db1 := UpdateTarget(db, ts[0]);
      var rest := ts[1..];
      SaveWritesTargets(db1, rest);
      forall i | 0 <= i < |ts| ensures SaveTargets(db, ts).targets[ts[i].objectId] == ts[i] {
        if i > 0 {
          assert rest[i - 1] == ts[i];
        } else {
          assert forall j :: 0 <= j < |rest| ==> rest[j].objectId != ts[0].objectId by {
            forall j | 0 <= j < |rest| ensures rest[j].objectId != ts[0].objectId {
              assert rest[j] == ts[j + 1];
            }
          }
        }
      }
    }
  }
}
