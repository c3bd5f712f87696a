/** Parsed JSON documents and the deep key search the pipeline applies to them
    (`nested_lookup(key, document)` with its default arguments). */
module Json {
  import opened Wrappers

  /** A parsed JSON document. Objects keep their members in document order; documents
      produced by a JSON parser have distinct keys in every object. */
  datatype Value =
    | Null
    | Bool(b: bool)
    | Number(n: int)
    | Str(s: string)
    | Array(items: seq<Value>)
    | Object(members: seq<Member>)

  datatype Member = Member(key: string, value: Value)

  /** Python `key in obj` for an object. */
  predicate HasKey(members: seq<Member>, key: string)
  {
    exists i :: 0 <= i < |members| && members[i].key == key
  }

  /** Python `obj[key]` / `obj.get(key)`: the value stored under `key`, if any. */
  function Get(members: seq<Member>, key: string): (r: Option<Value>)
    ensures r.None? <==> !HasKey(members, key)
    ensures r.Some? ==> exists i :: 0 <= i < |members| && members[i] == Member(key, r.value)
  {
    if |members| == 0 then None
    else if members[0].key == key then Some(members[0].value)
    else
      var r := Get(members[1..], key);
      assert HasKey(members, key) ==> HasKey(members[1..], key) by {
        if HasKey(members, key) {
          var i :| 0 <= i < |members| && members[i].key == key;
          assert members[1..][i - 1].key == key;
        }
      }
      r
  }

  /** No key occurs twice among the members, as in every dictionary the parser builds. */
  predicate DistinctKeys(members: seq<Member>)
  {
    forall i, j :: 0 <= i < j < |members| ==> members[i].key != members[j].key
  }

  /** With distinct keys, `obj[key]` is the value of the one member with that key, whichever
      position it has. */
  lemma GetDistinct(members: seq<Member>, i: nat)
    requires DistinctKeys(members)
    requires i < |members|
    ensures Get(members, members[i].key) == Some(members[i].value)
  {
    var r := Get(members, members[i].key);
    assert HasKey(members, members[i].key);
    var j :| 0 <= j < |members| && members[j] == Member(members[i].key, r.value);
    assert i == j;
  }

  // ---------------------------------------------------------------------------
  // Deep lookup

  /** Every value stored under `key` anywhere in `doc`, in document order: an object yields
      the value of a matching member and then whatever lies inside that member's value;
      an array yields what lies inside its items; scalars yield nothing. */
  function Lookup(key: string, doc: Value): seq<Value>
    decreases doc
  {
    match doc
    case Array(items) => LookupItems(key, items)
    case Object(members) => LookupMembers(key, members)
    case _ => []
  }

  function LookupItems(key: string, items: seq<Value>): seq<Value>
    decreases items
  {
    if |items| == 0 then [] else Lookup(key, items[0]) + LookupItems(key, items[1..])
  }

  function LookupMembers(key: string, members: seq<Member>): seq<Value>
    decreases members
  {
    if |members| == 0 then []
    else
      var m := members[0];
      (if m.key == key then [m.value] else []) + Lookup(key, m.value) + LookupMembers(key, members[1..])
  }

  // ---------------------------------------------------------------------------
  // An independent description of the same values, by the path that leads to them

  /** One step into a document: the i-th item of an array, or the value of the i-th member
      of an object. */
  datatype Step = Item(i: nat) | Field(i: nat)

  /** The sub-document reached from `doc` along `path`, if the path exists. */
  function Follow(doc: Value, path: seq<Step>): Option<Value>
    decreases |path|
  {
    if |path| == 0 then Some(doc)
    else match (doc, path[0])
      case (Array(items), Item(i)) =>
        if i < |items| then Follow(items[i], path[1..]) else None
      case (Object(members), Field(i)) =>
        if i < |members| then Follow(members[i].value, path[1..]) else None
      case _ => None
  }

  /** `v` is the value of a member named `key` of some object reached from `doc` along
      `path`: the path ends in the step into that member. */
  ghost predicate FoundAt(doc: Value, key: string, path: seq<Step>, v: Value)
  {
    && |path| > 0
    && path[|path| - 1].Field?
    && var i := path[|path| - 1].i;
       match Follow(doc, path[..|path| - 1])
       case Some(Object(members)) => i < |members| && members[i] == Member(key, v)
       case _ => false
  }

  // ---------------------------------------------------------------------------
  // Lemmas: the lookup returns exactly the values found at the end of some path

  lemma {:induction false} LookupItemsMembership(key: string, items: seq<Value>, v: Value)
    ensures v in LookupItems(key, items) <==> exists i :: 0 <= i < |items| && v in Lookup(key, items[i])
    decreases items
  {
    if |items| > 0 {
      LookupItemsMembership(key, items[1..], v);
      if v in LookupItems(key, items[1..]) {
        var i :| 0 <= i < |items[1..]| && v in Lookup(key, items[1..][i]);
        assert v in Lookup(key, items[i + 1]);
      }
      forall i | 1 <= i < |items| && v in Lookup(key, items[i])
        ensures v in LookupItems(key, items[1..])
      {
        assert items[1..][i - 1] == items[i];
      }
    }
  }

  /** `v` is the value of the member itself, or lies inside it. */
  ghost predicate InMember(key: string, m: Member, v: Value)
  {
    m == Member(key, v) || v in Lookup(key, m.value)
  }

  lemma {:induction false} LookupMembersMembership(key: string, members: seq<Member>, v: Value)
    ensures v in LookupMembers(key, members) <==> exists i :: 0 <= i < |members| && InMember(key, members[i], v)
    decreases members
  {
    if |members| > 0 {
      LookupMembersMembership(key, members[1..], v);
      if v in LookupMembers(key, members[1..]) {
        var i :| 0 <= i < |members[1..]| && InMember(key, members[1..][i], v);
        assert InMember(key, members[i + 1], v);
      }
      forall i | 1 <= i < |members| && InMember(key, members[i], v)
        ensures v in LookupMembers(key, members[1..])
      {
        assert members[1..][i - 1] == members[i];
      }
    }
  }

  /** Following a path that starts with a step into `child` is following the rest from `child`. */
  lemma FollowCons(doc: Value, s: Step, child: Value, path: seq<Step>)
    requires Follow(doc, [s]) == Some(child)
    ensures Follow(doc, [s] + path) == Follow(child, path)
  {
    assert ([s] + path)[0] == s;
    assert ([s] + path)[1..] == path;
    assert [s][1..] == [];
  }

  /** A hit found inside a child is a hit of the parent, one step further from the root. */
  lemma FoundAtCons(doc: Value, s: Step, child: Value, key: string, path: seq<Step>, v: Value)
    requires Follow(doc, [s]) == Some(child)
    requires FoundAt(child, key, path, v)
    ensures FoundAt(doc, key, [s] + path, v)
  {
    var p := [s] + path;
    assert p[..|p| - 1] == [s] + path[..|path| - 1];
    assert p[|p| - 1] == path[|path| - 1];
    FollowCons(doc, s, child, path[..|path| - 1]);
  }

  /** Every value the lookup returns is stored under `key` somewhere in the document. */
  lemma {:induction false} LookupSound(key: string, doc: Value, v: Value)
    requires v in Lookup(key, doc)
    ensures exists path :: FoundAt(doc, key, path, v)
    decreases doc
  {
    match doc
    case Array(items) =>
      LookupItemsMembership(key, items, v);
      var i :| 0 <= i < |items| && v in Lookup(key, items[i]);
      LookupSound(key, items[i], v);
      var path :| FoundAt(items[i], key, path, v);
      FoundAtCons(doc, Item(i), items[i], key, path, v);
    case Object(members) =>
      LookupMembersMembership(key, members, v);
      var i :| 0 <= i < |members| && InMember(key, members[i], v);
      if members[i] == Member(key, v) {
        assert [Field(i)][..0] == [];
        assert FoundAt(doc, key, [Field(i)], v);
      } else {
        LookupSound(key, members[i].value, v);
        var path :| FoundAt(members[i].value, key, path, v);
        FoundAtCons(doc, Field(i), members[i].value, key, path, v);
      }
  }

  /** Every value stored under `key` anywhere in the document is returned by the lookup. */
  lemma {:induction false} LookupComplete(key: string, doc: Value, path: seq<Step>, v: Value)
    requires FoundAt(doc, key, path, v)
    ensures v in Lookup(key, doc)
    decreases |path|
  {
    if |path| == 1 {
      assert path[..0] == [];
      var members := doc.members;
      assert InMember(key, members[path[0].i], v);
      LookupMembersMembership(key, members, v);
    } else {
      var s := path[0];
      var child :| Follow(doc, [s]) == Some(child) by {
        assert path[..|path| - 1] == [s] + path[1..|path| - 1];
        FollowStepExists(doc, s, path[1..|path| - 1]);
      }
      assert path == [s] + path[1..];
      assert path[1..][..|path| - 2] == path[1..|path| - 1];
      assert path[..|path| - 1] == [s] + path[1..|path| - 1];
      FollowCons(doc, s, child, path[1..|path| - 1]);
      assert FoundAt(child, key, path[1..], v);
      LookupComplete(key, child, path[1..], v);
      match s
      case Item(i) =>
        LookupItemsMembership(key, doc.items, v);
      case Field(i) =>
        assert InMember(key, doc.members[i], v);
        LookupMembersMembership(key, doc.members, v);
    }
  }

  /** A path that leads somewhere starts with a step that leads somewhere. */
  lemma FollowStepExists(doc: Value, s: Step, rest: seq<Step>)
    requires Follow(doc, [s] + rest).Some?
    ensures Follow(doc, [s]).Some?
  {
    assert ([s] + rest)[0] == s;
    assert [s][1..] == [];
  }

  /** The lookup returns exactly the values stored under `key` at any depth, inside objects
      and arrays alike. */
  lemma LookupFindsExactlyKeyedValues(key: string, doc: Value, v: Value)
    ensures v in Lookup(key, doc) <==> exists path :: FoundAt(doc, key, path, v)
  {
    if v in Lookup(key, doc) {
      LookupSound(key, doc, v);
    }
    if exists path :: FoundAt(doc, key, path, v) {
      var path :| FoundAt(doc, key, path, v);
      LookupComplete(key, doc, path, v);
    }
  }

  /** The lookup comes back empty exactly when no object in the document has the key. */
  lemma LookupEmptyIffKeyAbsent(key: string, doc: Value)
    ensures Lookup(key, doc) == [] <==> forall path, v :: !FoundAt(doc, key, path, v)
  {
    if Lookup(key, doc) != [] {
      LookupSound(key, doc, Lookup(key, doc)[0]);
    }
    forall path, v | FoundAt(doc, key, path, v)
      ensures Lookup(key, doc) != []
    {
      LookupComplete(key, doc, path, v);
    }
  }
}
