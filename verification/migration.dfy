/**
 * The one-shot schema migration run when the database is opened: at user version 0,
 * every merge-target document gets its current id fields copied from the legacy ones,
 * every root-configuration document its current settings copied from the legacy ones,
 * and the user version becomes 1. Documents are only updated, never added or removed.
 */
module Migration {
  /** A stored value, as far as the migration cares: it is copied, never inspected. */
  datatype BsonValue = BsonNull | BsonString(s: string) | BsonBool(b: bool) | BsonInt(i: int) | BsonOther

  /** A document: field name to value. */
  type Document = map<string, BsonValue>

  /** A database: its user version and its collections by name, each a list of documents. */
  datatype Db = Db(userVersion: int, collections: map<string, seq<Document>>)

  const MergeTargetCollection: string := "mergetarget"
  const RootConfigurationCollection: string := "rootconfiguration"

  /** The copies made in each merge target, as (current field, legacy field), in order. */
  const TargetCopies: seq<(string, string)> := [("WorkItemId", "BugNumber"), ("ChangesetId", "Changeset")]

  /** The copies made in each root configuration, in order. */
  const ConfigurationCopies: seq<(string, string)> := [
    ("ShowProjectSettings", "ShowTfsSettings"),
    ("OnPremTfsUsername", "TfsUsername"),
    ("OnPremTfsPassword", "TfsPassword"),
    ("CloudAzureDevOpsToken", "TfsToken")]

  /** `doc[key]`: a missing field reads as null. */
  function Get(doc: Document, key: string): BsonValue {
    if key in doc then doc[key] else BsonNull
  }

  /** The fields a run of copies writes. */
  function Written(copies: seq<(string, string)>): set<string> {
    set i | 0 <= i < |copies| :: copies[i].0
  }

  /** The fields a run of copies reads. */
  function Read(copies: seq<(string, string)>): set<string> {
    set i | 0 <= i < |copies| :: copies[i].1
  }

  /**
   * `doc[to] = doc[from]` for each pair in order. Every written field is present afterwards;
   * every other field keeps its value.
   */
  function CopyFields(doc: Document, copies: seq<(string, string)>): (r: Document)
    ensures r.Keys == doc.Keys + Written(copies)
    ensures forall k :: k in doc && k !in Written(copies) ==> r[k] == doc[k]
    decreases |copies|
  {
    if |copies| == 0 then doc
    else
      var r := CopyFields(doc[copies[0].0 := Get(doc, copies[0].1)], copies[1..]);
      assert Written(copies) == {copies[0].0} + Written(copies[1..]) by {
        forall x | x in Written(copies) ensures x in {copies[0].0} + Written(copies[1..]) {
          var i :| 0 <= i < |copies| && copies[i].0 == x;
          if i > 0 { assert copies[1..][i - 1] == copies[i]; }
        }
        forall x | x in Written(copies[1..]) ensures x in Written(copies) {
          var i :| 0 <= i < |copies[1..]| && copies[1..][i].0 == x;
          assert copies[i + 1] == copies[1..][i];
        }
      }
      r
  }

  /**
   * When no field is both written and read, and no field is written twice, each written
   * field ends up holding what its legacy field held before the run.
   */
  lemma {:induction false} CopyFieldsCopies(doc: Document, copies: seq<(string, string)>)
    requires Written(copies) !! Read(copies)
    requires forall i, j :: 0 <= i < j < |copies| ==> copies[i].0 != copies[j].0
    ensures forall i :: 0 <= i < |copies| ==> Get(CopyFields(doc, copies), copies[i].0) == Get(doc, copies[i].1)
    decreases |copies|
  {
    if |copies| > 0 {
      var d1 := doc[copies[0].0 := Get(doc, copies[0].1)];
      var rest := copies[1..];
      assert forall i :: 0 <= i < |rest| ==> rest[i] == copies[i + 1];
      assert Written(rest) <= Written(copies) && Read(rest) <= Read(copies) by {
        forall x | x in Written(rest) ensures x in Written(copies) {
          var i :| 0 <= i < |rest| && rest[i].0 == x;
        }
        forall x | x in Read(rest) ensures x in Read(copies) {
          var i :| 0 <= i < |rest| && rest[i].1 == x;
        }
      }
      CopyFieldsCopies(d1, rest);
      forall i | 0 <= i < |copies| ensures Get(CopyFields(doc, copies), copies[i].0) == Get(doc, copies[i].1) {
        if i == 0 {
          assert copies[0].0 !in Written(rest) by {
            if copies[0].0 in Written(rest) {
              var j :| 0 <= j < |rest| && rest[j].0 == copies[0].0;
            }
          }
          assert copies[0].0 in Written(copies);
        } else {
          assert rest[i - 1] == copies[i];
          assert copies[i].1 in Read(copies);
          assert copies[i].1 != copies[0].0 by {
            assert copies[0].0 in Written(copies);
          }
        }
      }
    }
  }

  /** `Update` of every document of a collection, each with the same copies. */
  function CopyAll(docs: seq<Document>, copies: seq<(string, string)>): (r: seq<Document>)
    ensures |r| == |docs|
    ensures forall i :: 0 <= i < |docs| ==> r[i] == CopyFields(docs[i], copies)
  {
    seq(|docs|, i requires 0 <= i < |docs| => CopyFields(docs[i], copies))
  }

  /** Apply the copies to a collection if the database has it; a missing collection stays missing. */
  function MigrateCollection(cs: map<string, seq<Document>>, name: string, copies: seq<(string, string)>)
    : (r: map<string, seq<Document>>)
    ensures r.Keys == cs.Keys
    ensures forall n :: n in cs && n != name ==> r[n] == cs[n]
    ensures name in cs ==> r[name] == CopyAll(cs[name], copies)
  {
    if name in cs then cs[name := CopyAll(cs[name], copies)] else cs
  }

  /**
   * The migration at open: at user version 0, the merge targets and root configurations
   * get their copies and the user version becomes 1; at any other version nothing changes.
   */
  function Migrate(db: Db): (r: Db)
    ensures db.userVersion != 0 ==> r == db
    ensures db.userVersion == 0 ==> r.userVersion == 1
    ensures r.collections.Keys == db.collections.Keys
    ensures forall n :: n in db.collections ==> |r.collections[n]| == |db.collections[n]|
    ensures forall n :: n in db.collections && n != MergeTargetCollection && n != RootConfigurationCollection ==>
              r.collections[n] == db.collections[n]
  {
    if db.userVersion != 0 then db
    else
      var cs := MigrateCollection(db.collections, MergeTargetCollection, TargetCopies);
      Db(1, MigrateCollection(cs, RootConfigurationCollection, ConfigurationCopies))
  }

  /** Opening the database again migrates nothing: the version is no longer 0. */
  lemma MigrateOnce(db: Db)
    ensures Migrate(Migrate(db)) == Migrate(db)
  {
  }

  /** The written and read fields of each copy list are apart, and no field is written twice. */
  lemma CopyListsAreApart()
    ensures Written(TargetCopies) !! Read(TargetCopies)
    ensures Written(ConfigurationCopies) !! Read(ConfigurationCopies)
  {
    assert Written(TargetCopies) == {"WorkItemId", "ChangesetId"} by {
      assert TargetCopies[0].0 == "WorkItemId" && TargetCopies[1].0 == "ChangesetId";
    }
    assert Read(TargetCopies) == {"BugNumber", "Changeset"} by {
      assert TargetCopies[0].1 == "BugNumber" && TargetCopies[1].1 == "Changeset";
    }
    assert Written(ConfigurationCopies) == {"ShowProjectSettings", "OnPremTfsUsername", "OnPremTfsPassword", "CloudAzureDevOpsToken"} by {
      assert ConfigurationCopies[0].0 == "ShowProjectSettings" && ConfigurationCopies[1].0 == "OnPremTfsUsername";
      assert ConfigurationCopies[2].0 == "OnPremTfsPassword" && ConfigurationCopies[3].0 == "CloudAzureDevOpsToken";
    }
    assert Read(ConfigurationCopies) == {"ShowTfsSettings", "TfsUsername", "TfsPassword", "TfsToken"} by {
      assert ConfigurationCopies[0].1 == "ShowTfsSettings" && ConfigurationCopies[1].1 == "TfsUsername";
      assert ConfigurationCopies[2].1 == "TfsPassword" && ConfigurationCopies[3].1 == "TfsToken";
    }
  }

  /**
   * Every merge target ends with `WorkItemId` equal to its `BugNumber` and `ChangesetId`
   * equal to its `Changeset`, keeping the legacy fields and every other field.
   */
  lemma MergeTargetsCopied(db: Db, i: int)
    requires db.userVersion == 0 && MergeTargetCollection in db.collections
    requires 0 <= i < |db.collections[MergeTargetCollection]|
    ensures var before := db.collections[MergeTargetCollection][i];
            var after := Migrate(db).collections[MergeTargetCollection][i];
            && Get(after, "WorkItemId") == Get(before, "BugNumber")
            && Get(after, "ChangesetId") == Get(before, "Changeset")
            && after.Keys == before.Keys + {"WorkItemId", "ChangesetId"}
            && forall k :: k in before && k != "WorkItemId" && k != "ChangesetId" ==> after[k] == before[k]
  {
    CopyListsAreApart();
    var before := db.collections[MergeTargetCollection][i];
    CopyFieldsCopies(before, TargetCopies);
    assert TargetCopies[0] == ("WorkItemId", "BugNumber") && TargetCopies[1] == ("ChangesetId", "Changeset");
    assert Written(TargetCopies) == {"WorkItemId", "ChangesetId"};
  }

  /**
   * Every root configuration ends with the four current settings equal to their legacy
   * counterparts, keeping the legacy fields and every other field.
   */
  lemma RootConfigurationsCopied(db: Db, i: int)
    requires db.userVersion == 0 && RootConfigurationCollection in db.collections
    requires 0 <= i < |db.collections[RootConfigurationCollection]|
    ensures var before := db.collections[RootConfigurationCollection][i];
            var after := Migrate(db).collections[RootConfigurationCollection][i];
            && Get(after, "ShowProjectSettings") == Get(before, "ShowTfsSettings")
            && Get(after, "OnPremTfsUsername") == Get(before, "TfsUsername")
            && Get(after, "OnPremTfsPassword") == Get(before, "TfsPassword")
            && Get(after, "CloudAzureDevOpsToken") == Get(before, "TfsToken")
            && forall k :: k in before && k !in Written(ConfigurationCopies) ==> after[k] == before[k]
  {
    CopyListsAreApart();
    var before := db.collections[RootConfigurationCollection][i];
    CopyFieldsCopies(before, ConfigurationCopies);
    assert ConfigurationCopies[0] == ("ShowProjectSettings", "ShowTfsSettings");
    assert ConfigurationCopies[1] == ("OnPremTfsUsername", "TfsUsername");
    assert ConfigurationCopies[2] == ("OnPremTfsPassword", "TfsPassword");
    assert ConfigurationCopies[3] == ("CloudAzureDevOpsToken", "TfsToken");
  }
}
