/** The object list the objects route builds from the org's describe call: keep the objects
    whose API name starts with the namespace, project each to the cached shape, sort by label.
    `localeCompare` is replaced by code-point order on labels. */
module ObjectCatalog {
  import opened Seqs
  import opened Text
  import opened Results
  import opened Session

  /** One element of the describe response's `sobjects`; a missing property is `None`. */
  datatype SObjectDescribe = SObjectDescribe(
    name: Option<string>,
    labelText: Option<string>,
    keyPrefix: Option<string>,
    custom: Option<bool>)

  /** JavaScript truthiness of an optional string property. */
  predicate Present(s: Option<string>)
  {
    s.Some? && s.value != []
  }

  /** `obj.name && obj.name.startsWith(namespace)`. */
  predicate InNamespace(namespace: string, obj: SObjectDescribe)
  {
    Present(obj.name) && StartsWith(obj.name.value, namespace)
  }

  /** The projection `{ label: obj.label || obj.name, apiName: obj.name, keyPrefix, custom: obj.custom || false }`. */
  function ToObjectInfo(obj: SObjectDescribe): (info: ObjectInfo)
    ensures obj.name.Some? ==> info.apiName == obj.name.value
    ensures Present(obj.labelText) ==> info.labelText == obj.labelText.value
    ensures !Present(obj.labelText) && obj.name.Some? ==> info.labelText == obj.name.value
    ensures info.keyPrefix == obj.keyPrefix
    ensures info.custom <==> obj.custom == Some(true)
  {
    var name := if obj.name.Some? then obj.name.value else "";
    ObjectInfo(if Present(obj.labelText) then obj.labelText.value else name, name, obj.keyPrefix, obj.custom == Some(true))
  }

  /** `.map(...)` over a sequence. */
  function Project(objs: seq<SObjectDescribe>): (r: seq<ObjectInfo>)
    ensures |r| == |objs|
    ensures forall i :: 0 <= i < |r| ==> r[i] == ToObjectInfo(objs[i])
  {
    seq(|objs|, i requires 0 <= i < |objs| => ToObjectInfo(objs[i]))
  }

  /** `(a.label || '').localeCompare(b.label || '') <= 0`, in code-point order. */
  predicate LabelLe(a: ObjectInfo, b: ObjectInfo)
  {
    LexLe(a.labelText, b.labelText)
  }

  /** Each label is at most the next one. */
  ghost predicate SortedByLabel(s: seq<ObjectInfo>)
  {
    forall i, j :: 0 <= i < j < |s| && j == i + 1 ==> LabelLe(s[i], s[j])
  }

  /** Insert into a sorted list ahead of the first element not below it. */
  function Insert(x: ObjectInfo, s: seq<ObjectInfo>): (r: seq<ObjectInfo>)
    requires SortedByLabel(s)
    ensures SortedByLabel(r)
    ensures multiset(r) == multiset(s) + multiset{x}
    ensures r[0] == x || (s != [] && r[0] == s[0])
    decreases |s|
  {
    if s == [] || LabelLe(x, s[0]) then
      SortedCons(x, s);
      [x] + s
    else
      LexLeTotal(x.labelText, s[0].labelText);
      SortedTail(s);
      var t := Insert(x, s[1..]);
      assert s == [s[0]] + s[1..];
      SortedCons(s[0], t);
      [s[0]] + t
  }

  lemma SortedTail(s: seq<ObjectInfo>)
    requires SortedByLabel(s) && s != []
    ensures SortedByLabel(s[1..])
  {
    forall i, j | 0 <= i < j < |s[1..]| && j == i + 1 ensures LabelLe(s[1..][i], s[1..][j]) {
      assert s[1..][i] == s[i + 1] && s[1..][j] == s[j + 1];
    }
  }

  lemma SortedCons(x: ObjectInfo, s: seq<ObjectInfo>)
    requires SortedByLabel(s) && (s != [] ==> LabelLe(x, s[0]))
    ensures SortedByLabel([x] + s)
  {
    var r := [x] + s;
    assert forall i, j :: 0 <= i < j < |r| && j == i + 1 && i > 0 ==> r[i] == s[i - 1] && r[j] == s[j - 1];
  }

  /** `.sort(...)`: insertion sort by label. An element goes ahead of the equal labels after it
      only if it came first, so equal labels keep their order, as in the stable JavaScript sort. */
  function SortByLabel(s: seq<ObjectInfo>): (r: seq<ObjectInfo>)
    ensures SortedByLabel(r)
    ensures multiset(r) == multiset(s)
    ensures |r| == |s|
    decreases |s|
  {
    if s == [] then []
    else
      assert s == [s[0]] + s[1..];
      var r := Insert(s[0], SortByLabel(s[1..]));
      assert |r| == |multiset(r)|;
      r
  }

  /** The whole pipeline: filter by namespace, project, sort. */
  function NamespaceObjects(all: seq<SObjectDescribe>, namespace: string): (r: seq<ObjectInfo>)
    ensures SortedByLabel(r)
    ensures multiset(r) == multiset(Project(Filter(all, o => InNamespace(namespace, o))))
    ensures |r| <= |all|
  {
    SortByLabel(Project(Filter(all, o => InNamespace(namespace, o))))
  }

  /** A list sorted pair by pair is sorted for every two positions. */
  lemma {:induction false} SortedPairwise(s: seq<ObjectInfo>, i: nat, j: nat)
    requires SortedByLabel(s) && i <= j < |s|
    ensures LabelLe(s[i], s[j])
    decreases j - i
  {
    if i == j {
      LexLeTotal(s[i].labelText, s[j].labelText);
    } else {
      SortedPairwise(s, i + 1, j);
      LexLeTrans(s[i].labelText, s[i + 1].labelText, s[j].labelText);
    }
  }

  /** Every listed object is the projection of a described object in the namespace: its API name
      is a non-empty name starting with the namespace, its label is the described label or else
      the name, and `custom` is true only for objects described as custom. */
  lemma NamespaceObjectsFields(all: seq<SObjectDescribe>, namespace: string, k: nat)
    requires k < |NamespaceObjects(all, namespace)|
    ensures var info := NamespaceObjects(all, namespace)[k];
      exists obj :: obj in all && InNamespace(namespace, obj) && info == ToObjectInfo(obj)
    ensures var info := NamespaceObjects(all, namespace)[k];
      info.apiName != [] && StartsWith(info.apiName, namespace) && info.labelText != []
  {
    var kept := Filter(all, o => InNamespace(namespace, o));
    var projected := Project(kept);
    var info := NamespaceObjects(all, namespace)[k];
    assert info in multiset(NamespaceObjects(all, namespace));
    assert info in multiset(projected);
    var i :| 0 <= i < |projected| && projected[i] == info;
    assert kept[i] in all && InNamespace(namespace, kept[i]);
  }

  /** The list is sorted by label for every two positions. */
  lemma NamespaceObjectsSorted(all: seq<SObjectDescribe>, namespace: string, i: nat, j: nat)
    requires i <= j < |NamespaceObjects(all, namespace)|
    ensures LexLe(NamespaceObjects(all, namespace)[i].labelText, NamespaceObjects(all, namespace)[j].labelText)
  {
    SortedPairwise(NamespaceObjects(all, namespace), i, j);
  }

  /** Every described object in the namespace is listed. */
  lemma NamespaceObjectsComplete(all: seq<SObjectDescribe>, namespace: string, obj: SObjectDescribe)
    requires obj in all && InNamespace(namespace, obj)
    ensures ToObjectInfo(obj) in NamespaceObjects(all, namespace)
  {
    var kept := Filter(all, o => InNamespace(namespace, o));
    assert obj in kept;
    var i :| 0 <= i < |kept| && kept[i] == obj;
    assert Project(kept)[i] == ToObjectInfo(obj);
    assert ToObjectInfo(obj) in multiset(Project(kept));
    assert ToObjectInfo(obj) in multiset(NamespaceObjects(all, namespace));
  }
}
