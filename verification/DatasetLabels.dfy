/** Class ids and names of one dataset (training-service/service/dataset_service.py): the class list and
    the label files that index it, under adding, renaming and removing classes and writing labels. */
module DatasetLabels {
  import opened Basics

  datatype Task = Detect | Segment | Classify | Face

  /** One label row: a class id and the geometry, which class operations never look into. */
  datatype Label = Label(classId: int, shape: string)

  /** A pre-label that carries its class by name. */
  datatype NamedLabel = NamedLabel(name: string, shape: string)

  /** Carried out, refused before any write, or stopped by a step that raised. */
  datatype Outcome = Ok | Rejected | Broken

  /** The steps that may raise: writing one label file, the class list or a photo, and reading the size of
      a stored image. Each happens at most once in an operation. */
  datatype Ask = LabelFile(image: string) | ClassList | Photo | ImageSize

  /** Which steps of an operation raise. */
  type Plan = Ask -> bool

  predicate UsesImageClass(task: Task) {
    task.Classify? || task.Face?
  }

  // ── ids and what they denote ───────────────────────────────────────────────────

  predicate InRange(rows: seq<Label>, n: nat) {
    forall k :: 0 <= k < |rows| ==> 0 <= rows[k].classId < n
  }

  /** What the rows say to a reader: names and geometry. */
  function Meaning(classes: seq<string>, rows: seq<Label>): (m: seq<NamedLabel>)
    requires InRange(rows, |classes|)
    ensures |m| == |rows|
  {
    seq(|rows|, k requires 0 <= k < |rows| => NamedLabel(classes[rows[k].classId], rows[k].shape))
  }

  function WithoutName(m: seq<NamedLabel>, name: string): seq<NamedLabel> {
    if m == [] then []
    else if m[0].name == name then WithoutName(m[1..], name)
    else [m[0]] + WithoutName(m[1..], name)
  }

  function Removed(classes: seq<string>, index: nat): seq<string>
    requires index < |classes|
  {
    classes[..index] + classes[index + 1..]
  }

  /** One row after class index is gone: shifted down when it was above. */
  function Shifted(r: Label, index: int): Label {
    r.(classId := if r.classId > index then r.classId - 1 else r.classId)
  }

  /** A label file's rows after class index is gone. */
  function Dropped(rows: seq<Label>, index: int): seq<Label> {
    if rows == [] then []
    else if rows[0].classId == index then Dropped(rows[1..], index)
    else [Shifted(rows[0], index)] + Dropped(rows[1..], index)
  }

  lemma {:induction false} DroppedInRange(rows: seq<Label>, n: nat, index: nat)
    requires InRange(rows, n) && index < n
    ensures InRange(Dropped(rows, index), n - 1)
  {
    if rows != [] {
      DroppedInRange(rows[1..], n, index);
      var rest := Dropped(rows[1..], index);
      assert forall k :: 0 <= k < |rest| ==> 0 <= rest[k].classId < n - 1;
    }
  }

  lemma MeaningCons(classes: seq<string>, r: Label, rows: seq<Label>)
    requires InRange(rows, |classes|) && 0 <= r.classId < |classes|
    ensures InRange([r] + rows, |classes|)
    ensures Meaning(classes, [r] + rows) == [NamedLabel(classes[r.classId], r.shape)] + Meaning(classes, rows)
  {
    var all := [r] + rows;
    forall k | 0 <= k < |all| ensures 0 <= all[k].classId < |classes| {
      assert k > 0 ==> all[k] == rows[k - 1];
    }
    assert all[1..] == rows;
  }

  /** Removing a class takes exactly its labels away; every other label keeps its name. */
  lemma {:induction false} RemovalKeepsMeaning(classes: seq<string>, rows: seq<Label>, index: nat)
    requires Distinct(classes) && index < |classes| && InRange(rows, |classes|)
    ensures InRange(Dropped(rows, index), |Removed(classes, index)|)
    ensures Meaning(Removed(classes, index), Dropped(rows, index))
            == WithoutName(Meaning(classes, rows), classes[index])
  {
    DroppedInRange(rows, |classes|, index);
    if rows != [] {
      RemovalKeepsMeaning(classes, rows[1..], index);
      var id := rows[0].classId;
      assert Meaning(classes, rows)[1..] == Meaning(classes, rows[1..]);
      if id != index {
        assert Removed(classes, index)[Shifted(rows[0], index).classId] == classes[id];
        MeaningCons(Removed(classes, index), Shifted(rows[0], index), Dropped(rows[1..], index));
      }
    }
  }

  /** A removal that breaks off before the class list is saved leaves rewritten files under the old
      list; such a file still reads right exactly if it held no label above the removed class. */
  lemma {:induction false} BrokenRemovalReads(classes: seq<string>, rows: seq<Label>, index: nat)
    requires Distinct(classes) && index < |classes| && InRange(rows, |classes|)
    ensures InRange(Dropped(rows, index), |classes|)
    ensures Meaning(classes, Dropped(rows, index)) == WithoutName(Meaning(classes, rows), classes[index])
            <==> forall k :: 0 <= k < |rows| ==> rows[k].classId <= index
  {
    DroppedInRange(rows, |classes|, index);
    if rows != [] {
      BrokenRemovalReads(classes, rows[1..], index);
      var id := rows[0].classId;
      assert Meaning(classes, rows)[1..] == Meaning(classes, rows[1..]);
      assert (forall k :: 0 <= k < |rows| ==> rows[k].classId <= index)
        <==> id <= index && forall k :: 0 <= k < |rows[1..]| ==> rows[1..][k].classId <= index by {
        assert forall k :: 0 < k < |rows| ==> rows[k] == rows[1..][k - 1];
      }
      if id != index {
        var now := Meaning(classes, Dropped(rows[1..], index));
        var due := WithoutName(Meaning(classes, rows[1..]), classes[index]);
        MeaningCons(classes, Shifted(rows[0], index), Dropped(rows[1..], index));
        assert Meaning(classes, Dropped(rows, index))[1..] == now;
        assert WithoutName(Meaning(classes, rows), classes[index])[1..] == due;
        assert id > index ==> classes[id - 1] != classes[id];
      }
    }
  }

  // ── names of pre-labels ──────────────────────────────────────────────────────

  /** Missing names are appended in the order they come up. */
  function Extended(classes: seq<string>, names: seq<string>): seq<string>
    decreases |names|
  {
    if names == [] then classes
    else Extended(if names[0] in classes then classes else classes + [names[0]], names[1..])
  }

  lemma {:induction false} ExtendedKeeps(classes: seq<string>, names: seq<string>)
    requires Distinct(classes)
    ensures classes <= Extended(classes, names) && Distinct(Extended(classes, names))
    ensures forall n :: n in Extended(classes, names) <==> n in classes || n in names
    decreases |names|
  {
    if names != [] {
      ExtendedKeeps(if names[0] in classes then classes else classes + [names[0]], names[1..]);
    }
  }

  function IndexOf(classes: seq<string>, name: string): (i: nat)
    requires name in classes
    ensures i < |classes| && classes[i] == name && name !in classes[..i]
  {
    if classes[0] == name then 0 else 1 + IndexOf(classes[1..], name)
  }

  // ── people ─────────────────────────────────────────────────────────────────

  /** In a face dataset two classes are one person when their folded names agree. */
  predicate DistinctPeople(fold: string -> string, classes: seq<string>) {
    forall a, b :: 0 <= a < b < |classes| ==> fold(classes[a]) != fold(classes[b])
  }

  /** Adding a photo appends its person's name after an exact comparison, so people stay distinct
      exactly when the name is already listed or no listed name folds to the same key. */
  lemma PhotoKeepsPeopleIff(fold: string -> string, classes: seq<string>, name: string)
    requires DistinctPeople(fold, classes)
    ensures DistinctPeople(fold, Extended(classes, [name])) <==>
            name in classes || forall k :: 0 <= k < |classes| ==> fold(classes[k]) != fold(name)
  {
    assert Extended(classes, [name]) == if name in classes then classes else classes + [name];
    if name !in classes {
      var all := classes + [name];
      forall k | 0 <= k < |classes| ensures all[k] == classes[k] && all[|classes|] == name {
      }
    }
  }

  lemma RemovedDistinct(fold: string -> string, classes: seq<string>, index: nat)
    requires index < |classes|
    ensures Distinct(classes) ==> Distinct(Removed(classes, index))
    ensures DistinctPeople(fold, classes) ==> DistinctPeople(fold, Removed(classes, index))
  {
    var rest := Removed(classes, index);
    forall k | 0 <= k < |rest| ensures rest[k] == classes[if k < index then k else k + 1] {
    }
  }

  /** For instance a photo of "alice" beside the class "Alice". */
  lemma TwoEntriesOnePerson(fold: string -> string)
    requires fold("Alice") == fold("alice")
    ensures DistinctPeople(fold, ["Alice"]) && !DistinctPeople(fold, Extended(["Alice"], ["alice"]))
  {
    var both := Extended(["Alice"], ["alice"]);
    assert "Alice"[0] != "alice"[0];
    assert both == ["Alice", "alice"] && both[0] == "Alice" && both[1] == "alice";
  }

  // ── label files ────────────────────────────────────────────────────────────

  type Files = map<string, seq<Label>>

  function RowsOf(files: Files, image: string): seq<Label> {
    if image in files then files[image] else []
  }

  /** Writing no rows removes the file. */
  function Written(files: Files, image: string, rows: seq<Label>): Files {
    if rows == [] then files - {image} else files[image := rows]
  }

  /** Every stored id indexes the class list, no file is empty, and a classification file has one row. */
  ghost predicate FilesValid(files: Files, n: nat, task: Task) {
    && (forall f :: f in files ==> files[f] != [] && InRange(files[f], n))
    && (UsesImageClass(task) ==> forall f :: f in files ==> |files[f]| == 1)
  }

  /** The files in done are rewritten for the removal of class index, the others are as they were. */
  ghost predicate Rewritten(before: Files, after: Files, done: set<string>, index: nat) {
    && after.Keys <= before.Keys
    && forall f :: f in before ==> RowsOf(after, f) == if f in done then Dropped(before[f], index) else before[f]
  }

  lemma {:induction false} DroppedLength(rows: seq<Label>, index: nat)
    ensures |Dropped(rows, index)| <= |rows|
  {
    if rows != [] {
      DroppedLength(rows[1..], index);
    }
  }

  /** Rewritten or not, ids stay within a list one longer than the reduced one; once all files are
      rewritten they fit the reduced list. */
  lemma RewrittenValid(before: Files, after: Files, done: set<string>, index: nat, n: nat, task: Task)
    requires FilesValid(before, n, task) && Rewritten(before, after, done, index) && index < n
    requires forall f :: f in after ==> after[f] != []
    ensures FilesValid(after, n, task)
    ensures before.Keys <= done ==> FilesValid(after, n - 1, task)
  {
    forall f | f in after
      ensures InRange(after[f], n) && (f in done ==> InRange(after[f], n - 1)) && |after[f]| <= |before[f]|
    {
      assert RowsOf(after, f) == after[f];
      DroppedInRange(before[f], n, index);
      DroppedLength(before[f], index);
    }
  }

  function Resolved(classes: seq<string>, named: seq<NamedLabel>): (rows: seq<Label>)
    requires forall k :: 0 <= k < |named| ==> named[k].name in classes
    ensures InRange(rows, |classes|) && Meaning(classes, rows) == named
  {
    var rows := seq(|named|, k requires 0 <= k < |named| => Label(IndexOf(classes, named[k].name), named[k].shape));
    assert forall k :: 0 <= k < |named| ==> Meaning(classes, rows)[k] == named[k];
    rows
  }

  function NamesOf(named: seq<NamedLabel>): seq<string> {
    seq(|named|, k requires 0 <= k < |named| => named[k].name)
  }

  function OptionalName(name: Option<string>): seq<string> {
    if name.Some? then [name.value] else []
  }

  class Dataset {
    const task: Task
    /** How names are compared as people, which names are acceptable as such and as a new class of this
        task, and which geometry is within the frame. */
    const fold: string -> string
    const plain: string -> bool
    const accepted: string -> bool
    const framed: string -> bool
    /** What polygon normalisation makes of the rings of one image. */
    const normalized: seq<Label> -> seq<Label>
    var classes: seq<string>
    var labels: Files
    var images: set<string>
    var frozen: bool

    ghost predicate Valid()
      reads this
    {
      && Distinct(classes) && labels.Keys <= images && FilesValid(labels, |classes|, task)
      && forall rings :: FromOffered(normalized(rings), rings)
    }

    ghost predicate Unchanged(classes': seq<string>, labels': Files, images': set<string>)
      reads this
    {
      classes == classes' && labels == labels' && images == images'
    }

    predicate SamePerson(a: string, b: string) {
      if task.Face? then fold(a) == fold(b) else a == b
    }

    predicate Taken(name: string, except: int)
      reads this`classes
    {
      exists k :: 0 <= k < |classes| && k != except && SamePerson(name, classes[k])
    }

    method AddClass(name: string, plan: Plan) returns (r: Outcome)
      requires Valid()
      modifies this`classes
      ensures Valid()
      ensures r.Rejected? <==>
        || frozen || !accepted(name)
        || exists k :: 0 <= k < |old(classes)| &&
             (if task.Face? then fold(old(classes)[k]) == fold(name) else old(classes)[k] == name)
      ensures r.Broken? <==> !r.Rejected? && plan(ClassList)
      ensures classes == if r.Ok? then old(classes) + [name] else old(classes)
      ensures task.Face? && DistinctPeople(fold, old(classes)) ==> DistinctPeople(fold, classes)
    {
      if frozen || !accepted(name) || Taken(name, -1) {
        return Rejected;
      }
      if plan(ClassList) {
        return Broken;
      }
      classes := classes + [name];
      return Ok;
    }

    /** Labels of the renamed class read the new name, all others what they read before. */
    method RenameClass(index: int, name: string, plan: Plan) returns (r: Outcome)
      requires Valid()
      modifies this`classes
      ensures Valid()
      ensures r.Rejected? <==>
        || frozen || !accepted(name) || !(0 <= index < |old(classes)|)
        || exists k :: 0 <= k < |old(classes)| && k != index &&
             (if task.Face? then fold(old(classes)[k]) == fold(name) else old(classes)[k] == name)
      ensures r.Broken? <==> !r.Rejected? && plan(ClassList)
      ensures !r.Ok? ==> classes == old(classes)
      ensures r.Ok? ==> classes == old(classes)[index := name]
      ensures r.Ok? ==> forall f, k :: f in labels && 0 <= k < |labels[f]| ==>
        Meaning(classes, labels[f])[k].name
        == if Meaning(old(classes), labels[f])[k].name == old(classes)[index] then name
           else Meaning(old(classes), labels[f])[k].name
      ensures task.Face? && DistinctPeople(fold, old(classes)) ==> DistinctPeople(fold, classes)
    {
      if frozen || !accepted(name) || !(0 <= index < |classes|) || Taken(name, index) {
        return Rejected;
      }
      if plan(ClassList) {
        return Broken;
      }
      classes := classes[index := name];
      return Ok;
    }

    /** One label file rewritten; false when the write raised. */
    method WriteRows(image: string, rows: seq<Label>, plan: Plan) returns (ok: bool)
      modifies this`labels
      ensures ok == !plan(LabelFile(image))
      ensures labels == if ok then Written(old(labels), image, rows) else old(labels)
    {
      ok := !plan(LabelFile(image));
      if ok {
        labels := Written(labels, image, rows);
      }
    }

    /** Rewrite every label file in whatever order they are listed, then save the shorter list. done are
        the files rewritten before a step raised. */
    method RemoveClass(index: int, plan: Plan) returns (r: Outcome, ghost done: set<string>)
      requires Valid()
      modifies this`classes, this`labels
      ensures Valid()
      ensures r.Rejected? <==> frozen || !(0 <= index < |old(classes)|)
      ensures r.Ok? <==> !r.Rejected? && FilesWrite(plan, old(labels)) && !plan(ClassList)
      ensures r.Rejected? ==> labels == old(labels)
      ensures !r.Ok? ==> classes == old(classes)
      ensures r.Ok? ==> classes == Removed(old(classes), index) && done == old(labels).Keys
      ensures !r.Rejected? ==> done <= old(labels).Keys && Rewritten(old(labels), labels, done, index)
      ensures r.Broken? ==> done == old(labels).Keys || exists f :: f in old(labels).Keys - done && plan(LabelFile(f))
      ensures forall f :: f in done ==> !plan(LabelFile(f))
      ensures task.Face? && DistinctPeople(fold, old(classes)) ==> DistinctPeople(fold, classes)
    {
      done := {};
      if frozen || !(0 <= index < |classes|) {
        return Rejected, {};
      }
      var ok;
      ok, done := RewriteFiles(index, plan);
      RewrittenValid(old(labels), labels, done, index, |classes|, task);
      if !ok || plan(ClassList) {
        return Broken, done;
      }
      RemovedDistinct(fold, classes, index);
      classes := Removed(classes, index);
      return Ok, done;
    }

    /** The loop over the label files. */
    method RewriteFiles(index: nat, plan: Plan) returns (ok: bool, ghost done: set<string>)
      requires forall f :: f in labels ==> labels[f] != []
      modifies this`labels
      ensures ok <==> FilesWrite(plan, old(labels))
      ensures done <= old(labels).Keys && Rewritten(old(labels), labels, done, index)
      ensures forall f :: f in done ==> !plan(LabelFile(f))
      ensures if ok then done == old(labels).Keys else exists f :: f in old(labels).Keys - done && plan(LabelFile(f))
      ensures forall f :: f in labels ==> labels[f] != []
    {
      var todo := labels.Keys;
      done := {};
      while todo != {}
        invariant todo + done == old(labels).Keys && todo !! done
        invariant Rewritten(old(labels), labels, done, index)
        invariant forall f :: f in labels ==> labels[f] != []
        invariant forall f :: f in done ==> !plan(LabelFile(f))
        decreases todo
      {
        var f :| f in todo;
        assert RowsOf(labels, f) == old(labels)[f];
        ok := WriteRows(f, Dropped(labels[f], index), plan);
        if !ok {
          return;
        }
        todo, done := todo - {f}, done + {f};
      }
      ok := true;
    }

    /** Only the kind of label of the dataset. */
    predicate KindAllowed(boxes: int, polygons: int, imageClass: bool) {
      && (boxes > 0 ==> task.Detect?) && (polygons > 0 ==> task.Segment?)
      && (imageClass ==> UsesImageClass(task))
    }

    predicate WellFormed(rows: seq<Label>, n: nat) {
      InRange(rows, n) && forall k :: 0 <= k < |rows| ==> framed(rows[k].shape)
    }

    /** What a label request must meet. */
    predicate Acceptable(image: string, boxes: seq<Label>, polygons: seq<Label>, imageClass: Option<int>)
      reads this
    {
      && !frozen && image in images && KindAllowed(|boxes|, |polygons|, imageClass.Some?)
      && (imageClass.Some? ==> 0 <= imageClass.value < |classes|)
      && WellFormed(boxes, |classes|) && WellFormed(polygons, |classes|)
    }

    /** Replace one image's labels; nothing else changes, and nothing at all when refused. */
    method SetLabels(image: string, boxes: seq<Label>, polygons: seq<Label>, imageClass: Option<int>, plan: Plan)
      returns (r: Outcome)
      requires Valid()
      modifies this`labels
      ensures Valid()
      ensures r.Rejected? <==>
        || frozen || image !in images || (boxes != [] && !task.Detect?) || (polygons != [] && !task.Segment?)
        || (imageClass.Some? && !task.Classify? && !task.Face?)
        || (imageClass.Some? && !(0 <= imageClass.value < |classes|))
        || (exists k :: 0 <= k < |boxes| && !(0 <= boxes[k].classId < |classes| && framed(boxes[k].shape)))
        || (exists k :: 0 <= k < |polygons| && !(0 <= polygons[k].classId < |classes| && framed(polygons[k].shape)))
      ensures r.Broken? <==> !r.Rejected? && (plan(LabelFile(image)) || (task.Segment? && plan(ImageSize)))
      ensures !r.Ok? ==> labels == old(labels)
      ensures r.Ok? ==> labels - {image} == old(labels) - {image}
      ensures r.Ok? ==>
        var rows := if task.Detect? then boxes else if task.Segment? then normalized(polygons)
                    else if imageClass.Some? then [Label(imageClass.value, "")] else [];
        if rows == [] then image !in labels else image in labels && labels[image] == rows
    {
      if !Acceptable(image, boxes, polygons, imageClass) {
        return Rejected;
      }
      var rows := boxes;
      if UsesImageClass(task) {
        rows := if imageClass.Some? then [Label(imageClass.value, "")] else [];
      } else if task.Segment? {
        if plan(ImageSize) {
          return Broken;
        }
        rows := normalized(polygons);
        NormalizedInRange(polygons);
      }
      var ok := WriteRows(image, rows, plan);
      return if ok then Ok else Broken;
    }

    lemma NormalizedInRange(polygons: seq<Label>)
      requires Valid() && InRange(polygons, |classes|)
      ensures InRange(normalized(polygons), |classes|)
    {
      assert FromOffered(normalized(polygons), polygons);
    }

    /** What a pre-labelled image must meet. */
    predicate Welcome(boxes: seq<NamedLabel>, polygons: seq<NamedLabel>, imageClass: Option<string>)
      reads this`frozen
    {
      && !frozen && KindAllowed(|boxes|, |polygons|, imageClass.Some?)
      && (forall k :: 0 <= k < |boxes| ==> plain(boxes[k].name) && framed(boxes[k].shape))
      && (forall k :: 0 <= k < |polygons| ==> plain(polygons[k].name) && framed(polygons[k].shape))
      && (imageClass.Some? ==> accepted(imageClass.value))
    }

    function RequestedNames(boxes: seq<NamedLabel>, polygons: seq<NamedLabel>, imageClass: Option<string>): seq<string> {
      NamesOf(boxes) + NamesOf(polygons) + OptionalName(imageClass)
    }

    /** Add an image with labels by class name: missing names join the list, and the stored rows read
        exactly as requested. A failure between the writes leaves at most a longer class list and an
        unlabelled image. */
    method AddLabeledImage(image: string, boxes: seq<NamedLabel>, polygons: seq<NamedLabel>, imageClass: Option<string>,
                           plan: Plan)
      returns (r: Outcome)
      requires Valid() && image !in images
      modifies this`classes, this`labels, this`images
      ensures Valid()
      ensures r.Rejected? <==>
        || frozen || (boxes != [] && !task.Detect?) || (polygons != [] && !task.Segment?)
        || (imageClass.Some? && !task.Classify? && !task.Face?) || (imageClass.Some? && !accepted(imageClass.value))
        || (exists k :: 0 <= k < |boxes| && !(plain(boxes[k].name) && framed(boxes[k].shape)))
        || (exists k :: 0 <= k < |polygons| && !(plain(polygons[k].name) && framed(polygons[k].shape)))
      ensures r.Ok? <==> !r.Rejected? && (polygons != [] ==> !plan(ImageSize))
                         && !plan(ClassList) && !plan(Photo) && !plan(LabelFile(image))
      ensures r.Rejected? ==> Unchanged(old(classes), old(labels), old(images))
      ensures r.Ok? ==> classes == Extended(old(classes), RequestedNames(boxes, polygons, imageClass))
      ensures r.Ok? ==> images == old(images) + {image}
      ensures r.Ok? ==>
        InRange(RowsOf(labels, image), |classes|) && ReadsAs(classes, RowsOf(labels, image), boxes, polygons, imageClass)
      ensures r.Broken? ==> labels == old(labels)
      ensures r.Broken? ==>
        classes == old(classes) || classes == Extended(old(classes), RequestedNames(boxes, polygons, imageClass))
      ensures r.Broken? ==>
        (image in images <==> (polygons != [] ==> !plan(ImageSize)) && !plan(ClassList) && !plan(Photo))
      ensures old(classes) <= classes && images - {image} == old(images)
      ensures forall f :: f != image ==> RowsOf(labels, f) == RowsOf(old(labels), f)
    {
      if !Welcome(boxes, polygons, imageClass) {
        return Rejected;
      }
      if polygons != [] && plan(ImageSize) {
        return Broken;
      }
      r := AddWelcome(image, boxes, polygons, imageClass, plan);
    }

    /** The part after all checks. */
    method AddWelcome(image: string, boxes: seq<NamedLabel>, polygons: seq<NamedLabel>, imageClass: Option<string>,
                      plan: Plan)
      returns (r: Outcome)
      requires Valid() && image !in images && KindAllowed(|boxes|, |polygons|, imageClass.Some?)
      modifies this`classes, this`labels, this`images
      ensures Valid() && !r.Rejected?
      ensures r.Ok? <==> !plan(ClassList) && !plan(Photo) && !plan(LabelFile(image))
      ensures classes == if plan(ClassList) then old(classes)
                         else Extended(old(classes), RequestedNames(boxes, polygons, imageClass))
      ensures old(classes) <= classes
      ensures images == if plan(ClassList) || plan(Photo) then old(images) else old(images) + {image}
      ensures !r.Ok? ==> labels == old(labels)
      ensures forall f :: f != image ==> RowsOf(labels, f) == RowsOf(old(labels), f)
      ensures r.Ok? ==>
        InRange(RowsOf(labels, image), |classes|) && ReadsAs(classes, RowsOf(labels, image), boxes, polygons, imageClass)
    {
      var names := RequestedNames(boxes, polygons, imageClass);
      var extended := AppendMissing(classes, names);
      ExtendedKeeps(classes, names);
      var rows := BuildRows(extended, boxes, polygons, imageClass);
      r := Store(image, extended, rows, plan);
      assert r.Ok? ==> RowsOf(labels, image) == rows;
    }

    /** Resolve the names against the extended list. */
    method BuildRows(extended: seq<string>, boxes: seq<NamedLabel>, polygons: seq<NamedLabel>, imageClass: Option<string>)
      returns (rows: seq<Label>)
      requires KindAllowed(|boxes|, |polygons|, imageClass.Some?)
      requires forall rings :: FromOffered(normalized(rings), rings)
      requires forall n :: n in RequestedNames(boxes, polygons, imageClass) ==> n in extended
      ensures InRange(rows, |extended|) && ReadsAs(extended, rows, boxes, polygons, imageClass)
    {
      NamesListed(boxes, polygons, imageClass, extended);
      if imageClass.Some? {
        rows := Resolved(extended, [NamedLabel(imageClass.value, "")]);
      } else if polygons != [] {
        var rings := Resolved(extended, polygons);
        rows := normalized(rings);
        assert FromOffered(rows, rings);
        forall k | 0 <= k < |rows|
          ensures 0 <= rows[k].classId < |extended| && extended[rows[k].classId] in NamesOf(polygons)
        {
          var j :| 0 <= j < |rings| && rings[j].classId == rows[k].classId;
          assert Meaning(extended, rings)[j].name == NamesOf(polygons)[j];
        }
      } else {
        rows := Resolved(extended, boxes);
      }
    }

    /** The rows say what was asked: boxes and the image class exactly, rings as normalised from the rows
        with the requested names. */
    ghost predicate ReadsAs(classes: seq<string>, rows: seq<Label>, boxes: seq<NamedLabel>,
                            polygons: seq<NamedLabel>, imageClass: Option<string>)
      requires InRange(rows, |classes|)
    {
      match task
      case Detect => Meaning(classes, rows) == boxes
      case Segment =>
        if polygons == [] then rows == []
        else RingsRead(classes, rows, polygons)
      case _ => Meaning(classes, rows) == if imageClass.Some? then [NamedLabel(imageClass.value, "")] else []
    }

    ghost predicate RingsRead(classes: seq<string>, rows: seq<Label>, polygons: seq<NamedLabel>) {
      exists rings :: InRange(rings, |classes|) && Meaning(classes, rings) == polygons && rows == normalized(rings)
    }

    /** The three writes in turn: class list, image, label file. */
    method Store(image: string, extended: seq<string>, rows: seq<Label>, plan: Plan) returns (r: Outcome)
      requires Valid() && image !in images && classes <= extended && Distinct(extended)
      requires InRange(rows, |extended|) && (UsesImageClass(task) ==> |rows| <= 1)
      modifies this`classes, this`labels, this`images
      ensures Valid() && !r.Rejected?
      ensures r.Ok? <==> !plan(ClassList) && !plan(Photo) && !plan(LabelFile(image))
      ensures classes == if plan(ClassList) then old(classes) else extended
      ensures images == if plan(ClassList) || plan(Photo) then old(images) else old(images) + {image}
      ensures labels == if r.Ok? then Written(old(labels), image, rows) else old(labels)
    {
      if plan(ClassList) {
        return Broken;
      }
      classes := extended;
      if plan(Photo) {
        return Broken;
      }
      images := images + {image};
      var ok := WriteRows(image, rows, plan);
      return if ok then Ok else Broken;
    }
  }

  /** Every label file can be written. */
  ghost predicate FilesWrite(plan: Plan, files: Files) {
    forall f :: f in files ==> !plan(LabelFile(f))
  }

  /** Normalisation merges and splits rings and drops degenerate ones; a ring keeps its class. */
  ghost predicate FromOffered(rows: seq<Label>, offered: seq<Label>) {
    forall k :: 0 <= k < |rows| ==> exists j :: 0 <= j < |offered| && offered[j].classId == rows[k].classId
  }

  /** The loop over the requested names. */
  method AppendMissing(classes: seq<string>, names: seq<string>) returns (extended: seq<string>)
    ensures extended == Extended(classes, names)
  {
    extended := classes;
    for k := 0 to |names|
      invariant Extended(extended, names[k..]) == Extended(classes, names)
    {
      assert names[k..][1..] == names[k + 1..];
      if names[k] !in extended {
        extended := extended + [names[k]];
      }
    }
  }

  lemma NamesListed(boxes: seq<NamedLabel>, polygons: seq<NamedLabel>, imageClass: Option<string>, extended: seq<string>)
    requires forall n :: n in NamesOf(boxes) + NamesOf(polygons) + OptionalName(imageClass) ==> n in extended
    ensures forall k :: 0 <= k < |boxes| ==> boxes[k].name in extended
    ensures forall k :: 0 <= k < |polygons| ==> polygons[k].name in extended
    ensures imageClass.Some? ==> imageClass.value in extended
  {
    forall k | 0 <= k < |boxes| ensures boxes[k].name in extended {
      assert NamesOf(boxes)[k] in NamesOf(boxes);
    }
    forall k | 0 <= k < |polygons| ensures polygons[k].name in extended {
      assert NamesOf(polygons)[k] in NamesOf(polygons);
    }
    assert imageClass.Some? ==> OptionalName(imageClass)[0] in OptionalName(imageClass);
  }

  /** Across a removal every image reads as before, less the removed class's labels. */
  lemma RemovedEverywhere(before: Files, after: Files, classes: seq<string>, index: nat, image: string, task: Task)
    requires Distinct(classes) && index < |classes| && FilesValid(before, |classes|, task)
    requires Rewritten(before, after, before.Keys, index)
    ensures InRange(RowsOf(after, image), |Removed(classes, index)|) && InRange(RowsOf(before, image), |classes|)
    ensures Meaning(Removed(classes, index), RowsOf(after, image))
            == WithoutName(Meaning(classes, RowsOf(before, image)), classes[index])
  {
    if image in before {
      RemovalKeepsMeaning(classes, before[image], index);
    }
  }
}
