/**
 The comparator of two projections of one IED's model (compare_live_model_json.py):
 structure decides whether they are compatible, runtime observations only inform.
 */
module ModelComparison {

  type Text = string

  datatype Category =
    | IedIdentity | LogicalDevice | LogicalNode | DataObject | DataAttribute | ReportControl | ControlBlock
    | TypeTemplate | TypeSignature | RuntimeDataSet | RuntimeDataSetMember | RuntimeRcb
    | RuntimeRcbDataSet | RuntimeRcbEnabled | RuntimeRcbReservation | RuntimeRcbReservationTime
    | RuntimeRcbReadEvidence | RuntimeRcbBinding

  datatype Side = CsharpOnly | CppOnly | Different

  /** What is reported about `value`; `left` and `right` are what the two sides tell, where both do. */
  datatype Difference = Difference(
    category: Category, side: Side, value: Text, left: Text, right: Text, blocking: bool)

  datatype RcbRuntime = RcbRuntime(
    dataSet: Text, enabled: Text, reservation: Text, reservationTime: Text, binding: Text, readEvidence: bool)

  datatype Projection = Projection(
    iedName: Text,
    logicalDevices: set<Text>, logicalNodes: set<Text>, dataObjects: set<Text>, dataAttributes: set<Text>,
    reportControls: set<Text>, controlBlocks: set<Text>,
    typeTemplates: set<Text>, attributeTypes: map<Text, Text>,
    dataSets: set<Text>, dataSetMembers: set<Text>, reportRuntime: map<Text, RcbRuntime>)

  // ----- The tests the comparator makes

  /** The signature of an attribute; empty where none was captured. */
  function Signature(p: Projection, attribute: Text): Text {
    if attribute in p.attributeTypes then p.attributeTypes[attribute] else ""
  }

  /** Captured on both sides, and not the same. */
  predicate Contradict(left: Text, right: Text) {
    left != "" && right != "" && left != right
  }

  /** Two captured signatures that contradict each other. */
  predicate Clash(a: Projection, b: Projection, attribute: Text) {
    Contradict(Signature(a, attribute), Signature(b, attribute))
  }

  predicate Unread(view: RcbRuntime) {
    view.binding == "notread" || view.binding == "readfailed"
  }

  /** What a DataSet name, read or empty, says about the binding. */
  function Implied(view: RcbRuntime): Text {
    if view.dataSet != "" then "bound" else "unbound"
  }

  const RESPECTS: seq<Category> :=
    [RuntimeRcbDataSet, RuntimeRcbEnabled, RuntimeRcbReservation, RuntimeRcbReservationTime,
     RuntimeRcbReadEvidence, RuntimeRcbBinding]

  /** What the two sides tell of a block in this respect. */
  function Views(category: Category, left: RcbRuntime, right: RcbRuntime): (Text, Text) {
    match category
    case RuntimeRcbDataSet => (left.dataSet, right.dataSet)
    case RuntimeRcbEnabled => (left.enabled, right.enabled)
    case RuntimeRcbReservation => (left.reservation, right.reservation)
    case RuntimeRcbReservationTime => (left.reservationTime, right.reservationTime)
    case RuntimeRcbReadEvidence => ("read", right.binding)
    case _ => (Implied(left), right.binding)
  }

  /** What one side tells of a block contradicts the other in this respect. */
  predicate Disagrees(category: Category, left: RcbRuntime, right: RcbRuntime) {
    var (l, r) := Views(category, left, right);
    match category
    case RuntimeRcbDataSet => l != r
    case RuntimeRcbEnabled | RuntimeRcbReservation | RuntimeRcbReservationTime => Contradict(l, r)
    case RuntimeRcbReadEvidence => left.readEvidence && Unread(right)
    case RuntimeRcbBinding => left.readEvidence && !Unread(right) && Contradict(l, r)
    case _ => false
  }

  // ----- The report

  function OneSided(category: Category, side: Side, blocking: bool, value: Text): Difference {
    Difference(category, side, value, "", "", blocking)
  }

  function OneSide(category: Category, side: Side, blocking: bool, values: set<Text>): set<Difference> {
    set v <- values :: OneSided(category, side, blocking, v)
  }

  function Clashing(a: Projection, b: Projection, attribute: Text): Difference {
    Difference(TypeSignature, Different, attribute, Signature(a, attribute), Signature(b, attribute), true)
  }

  ghost function Clashes(a: Projection, b: Projection, attributes: set<Text>): set<Difference> {
    set x | x in attributes && Clash(a, b, x) :: Clashing(a, b, x)
  }

  function Observed(category: Category, reference: Text, left: RcbRuntime, right: RcbRuntime): Difference {
    var (l, r) := Views(category, left, right);
    Difference(category, Different, reference, l, r, false)
  }

  ghost function Contradictions(reference: Text, left: RcbRuntime, right: RcbRuntime, respects: seq<Category>)
    : set<Difference>
  {
    set x | x in respects && Disagrees(x, left, right) :: Observed(x, reference, left, right)
  }

  ghost function AllContradictions(a: map<Text, RcbRuntime>, b: map<Text, RcbRuntime>, references: set<Text>)
    : set<Difference>
    requires references <= a.Keys && references <= b.Keys
  {
    set x, r | r in references && x in RESPECTS && Disagrees(x, a[r], b[r]) :: Observed(x, r, a[r], b[r])
  }

  ghost function Identity(a: Projection, b: Projection): set<Difference> {
    if a.iedName == b.iedName then {} else {Difference(IedIdentity, Different, "", a.iedName, b.iedName, true)}
  }

  /** What either side lacks. */
  ghost function Lacking(category: Category, expected: set<Text>, observed: set<Text>, blocking: bool)
    : multiset<Difference>
  {
    multiset(OneSide(category, CsharpOnly, blocking, expected - observed))
    + multiset(OneSide(category, CppOnly, blocking, observed - expected))
  }

  ghost function Structural(a: Projection, b: Projection): multiset<Difference> {
    multiset(Identity(a, b))
    + Lacking(LogicalDevice, a.logicalDevices, b.logicalDevices, true)
    + Lacking(LogicalNode, a.logicalNodes, b.logicalNodes, true)
    + Lacking(DataObject, a.dataObjects, b.dataObjects, true)
    + Lacking(DataAttribute, a.dataAttributes, b.dataAttributes, true)
    + Lacking(ReportControl, a.reportControls, b.reportControls, true)
    + Lacking(ControlBlock, a.controlBlocks, b.controlBlocks, true)
  }

  ghost function Typed(a: Projection, b: Projection): multiset<Difference> {
    Lacking(TypeTemplate, a.typeTemplates, b.typeTemplates, false)
    + multiset(Clashes(a, b, a.dataAttributes * b.dataAttributes))
  }

  ghost function RuntimeBlocks(a: map<Text, RcbRuntime>, b: map<Text, RcbRuntime>): multiset<Difference> {
    Lacking(RuntimeRcb, a.Keys, b.Keys, false) + multiset(AllContradictions(a, b, a.Keys * b.Keys))
  }

  ghost function Runtime(a: Projection, b: Projection): multiset<Difference> {
    Lacking(RuntimeDataSet, a.dataSets, b.dataSets, false)
    + Lacking(RuntimeDataSetMember, a.dataSetMembers, b.dataSetMembers, false)
    + RuntimeBlocks(a.reportRuntime, b.reportRuntime)
  }

  ghost function Report(a: Projection, b: Projection, types: bool, runtime: bool): multiset<Difference> {
    Structural(a, b) + (if types then Typed(a, b) else multiset{})
    + (if runtime then Runtime(a, b) else multiset{})
  }

  // ----- What the report says

  /** A value that one side has and the other lacks. */
  predicate Unpaired(expected: set<Text>, observed: set<Text>, d: Difference) {
    && d.left == "" && d.right == ""
    && (d.side == CsharpOnly || d.side == CppOnly)
    && (d.value in expected <==> d.side == CsharpOnly)
    && (d.value in observed <==> d.side == CppOnly)
  }

  predicate BothTold(d: Difference) {
    d.left != d.right && |d.left| > 0 && |d.right| > 0
  }

  /** What is to be reported of a block that both sides have. */
  predicate BlockDiffers(l: RcbRuntime, r: RcbRuntime, d: Difference) {
    var unread := r.binding in {"notread", "readfailed"};
    match d.category
    case RuntimeRcbDataSet => d.left == l.dataSet && d.right == r.dataSet && d.left != d.right
    case RuntimeRcbEnabled => d.left == l.enabled && d.right == r.enabled && BothTold(d)
    case RuntimeRcbReservation => d.left == l.reservation && d.right == r.reservation && BothTold(d)
    case RuntimeRcbReservationTime => d.left == l.reservationTime && d.right == r.reservationTime && BothTold(d)
    case RuntimeRcbReadEvidence => d.left == "read" && d.right == r.binding && l.readEvidence && unread
    case RuntimeRcbBinding =>
      && l.readEvidence && !unread && d.right == r.binding && r.binding != ""
      && d.left == (if |l.dataSet| == 0 then "unbound" else "bound") && d.left != d.right
    case _ => false
  }

  /** What is to be reported, category by category. */
  predicate Differs(a: Projection, b: Projection, d: Difference) {
    var x := d.value;
    match d.category
    case IedIdentity =>
      d.side == Different && x == "" && d.left == a.iedName && d.right == b.iedName && d.left != d.right
    case LogicalDevice => Unpaired(a.logicalDevices, b.logicalDevices, d)
    case LogicalNode => Unpaired(a.logicalNodes, b.logicalNodes, d)
    case DataObject => Unpaired(a.dataObjects, b.dataObjects, d)
    case DataAttribute => Unpaired(a.dataAttributes, b.dataAttributes, d)
    case ReportControl => Unpaired(a.reportControls, b.reportControls, d)
    case ControlBlock => Unpaired(a.controlBlocks, b.controlBlocks, d)
    case TypeTemplate => Unpaired(a.typeTemplates, b.typeTemplates, d)
    case TypeSignature =>
      && d.side == Different && x in a.dataAttributes && x in b.dataAttributes
      && x in a.attributeTypes && x in b.attributeTypes
      && d.left == a.attributeTypes[x] && d.right == b.attributeTypes[x] && BothTold(d)
    case RuntimeDataSet => Unpaired(a.dataSets, b.dataSets, d)
    case RuntimeDataSetMember => Unpaired(a.dataSetMembers, b.dataSetMembers, d)
    case RuntimeRcb => Unpaired(a.reportRuntime.Keys, b.reportRuntime.Keys, d)
    case _ =>
      && d.side == Different && x in a.reportRuntime && x in b.reportRuntime
      && BlockDiffers(a.reportRuntime[x], b.reportRuntime[x], d)
  }

  predicate OfStructure(c: Category) {
    c in {IedIdentity, LogicalDevice, LogicalNode, DataObject, DataAttribute, ReportControl, ControlBlock}
  }

  predicate OfTypes(c: Category) {
    c == TypeTemplate || c == TypeSignature
  }

  lemma LackingExactly(category: Category, e: set<Text>, o: set<Text>, blocking: bool, d: Difference)
    ensures Lacking(category, e, o, blocking)[d] ==
      if d.category == category && d.blocking == blocking && Unpaired(e, o, d) then 1 else 0
  {
    var left, right := OneSide(category, CsharpOnly, blocking, e - o), OneSide(category, CppOnly, blocking, o - e);
    assert d in left <==> d.value in e - o && d == OneSided(category, CsharpOnly, blocking, d.value);
    assert d in right <==> d.value in o - e && d == OneSided(category, CppOnly, blocking, d.value);
  }

  lemma ClashesExactly(a: Projection, b: Projection, d: Difference)
    ensures multiset(Clashes(a, b, a.dataAttributes * b.dataAttributes))[d] ==
      if d.category == TypeSignature && d.blocking && Differs(a, b, d) then 1 else 0
  {
    var x := d.value;
    var clashes := Clashes(a, b, a.dataAttributes * b.dataAttributes);
    assert d in clashes <==> x in a.dataAttributes * b.dataAttributes && Clash(a, b, x) && d == Clashing(a, b, x);
  }

  lemma BlockExactly(l: RcbRuntime, r: RcbRuntime, d: Difference)
    ensures d.category in RESPECTS && Disagrees(d.category, l, r) && d == Observed(d.category, d.value, l, r) <==>
            d.side == Different && !d.blocking && BlockDiffers(l, r, d)
  {
  }

  lemma RuntimeExactly(a: map<Text, RcbRuntime>, b: map<Text, RcbRuntime>, d: Difference)
    ensures multiset(AllContradictions(a, b, a.Keys * b.Keys))[d] ==
      if && d.side == Different && !d.blocking && d.value in a && d.value in b
         && BlockDiffers(a[d.value], b[d.value], d) then 1 else 0
  {
    var all := AllContradictions(a, b, a.Keys * b.Keys);
    hide BlockDiffers, Disagrees, Views;
    if d.value in a && d.value in b {
      BlockExactly(a[d.value], b[d.value], d);
      assert d in all <==>
        && d.category in RESPECTS && Disagrees(d.category, a[d.value], b[d.value])
        && d == Observed(d.category, d.value, a[d.value], b[d.value]);
    }
  }

  lemma StructuralExactly(a: Projection, b: Projection, d: Difference)
    ensures Structural(a, b)[d] == if OfStructure(d.category) && d.blocking && Differs(a, b, d) then 1 else 0
  {
    hide Lacking, Unpaired;
    LackingExactly(LogicalDevice, a.logicalDevices, b.logicalDevices, true, d);
    LackingExactly(LogicalNode, a.logicalNodes, b.logicalNodes, true, d);
    LackingExactly(DataObject, a.dataObjects, b.dataObjects, true, d);
    LackingExactly(DataAttribute, a.dataAttributes, b.dataAttributes, true, d);
    LackingExactly(ReportControl, a.reportControls, b.reportControls, true, d);
    LackingExactly(ControlBlock, a.controlBlocks, b.controlBlocks, true, d);
  }

  lemma TypedExactly(a: Projection, b: Projection, d: Difference)
    ensures Typed(a, b)[d] ==
      if OfTypes(d.category) && (d.blocking <==> d.category == TypeSignature) && Differs(a, b, d) then 1 else 0
  {
    hide Lacking, Unpaired, Clashes, Clash;
    LackingExactly(TypeTemplate, a.typeTemplates, b.typeTemplates, false, d);
    ClashesExactly(a, b, d);
  }

  lemma InformsExactly(a: Projection, b: Projection, d: Difference)
    ensures Runtime(a, b)[d] ==
      if !OfStructure(d.category) && !OfTypes(d.category) && !d.blocking && Differs(a, b, d) then 1 else 0
  {
    hide Lacking, Unpaired, AllContradictions;
    LackingExactly(RuntimeDataSet, a.dataSets, b.dataSets, false, d);
    LackingExactly(RuntimeDataSetMember, a.dataSetMembers, b.dataSetMembers, false, d);
    LackingExactly(RuntimeRcb, a.reportRuntime.Keys, b.reportRuntime.Keys, false, d);
    RuntimeExactly(a.reportRuntime, b.reportRuntime, d);
  }

  /** A difference is reported once, and exactly if it is one and its kind is compared. */
  lemma ReportedExactly(a: Projection, b: Projection, types: bool, runtime: bool, d: Difference)
    ensures Report(a, b, types, runtime)[d] ==
      if && Differs(a, b, d)
         && (d.blocking <==> OfStructure(d.category) || d.category == TypeSignature)
         && (OfTypes(d.category) ==> types)
         && (!OfTypes(d.category) && !OfStructure(d.category) ==> runtime)
      then 1 else 0
  {
    hide Structural, Typed, Runtime, Differs;
    StructuralExactly(a, b, d);
    TypedExactly(a, b, d);
    InformsExactly(a, b, d);
  }

  // ----- Compatibility

  predicate SameStructure(a: Projection, b: Projection) {
    && a.iedName == b.iedName
    && a.logicalDevices == b.logicalDevices && a.logicalNodes == b.logicalNodes && a.dataObjects == b.dataObjects
    && a.dataAttributes == b.dataAttributes && a.reportControls == b.reportControls
    && a.controlBlocks == b.controlBlocks
  }

  /** No attribute of both sides was captured with two signatures. */
  ghost predicate SameTypes(a: Projection, b: Projection) {
    forall x :: x in a.dataAttributes && x in b.dataAttributes && x in a.attributeTypes && x in b.attributeTypes ==>
                  || a.attributeTypes[x] == b.attributeTypes[x]
                  || |a.attributeTypes[x]| == 0 || |b.attributeTypes[x]| == 0
  }

  ghost predicate Blocks(a: Projection, b: Projection, types: bool, d: Difference) {
    && Differs(a, b, d) && d.blocking
    && (OfStructure(d.category) || (d.category == TypeSignature && types))
  }

  lemma Unequal(category: Category, e: set<Text>, o: set<Text>) returns (d: Difference)
    requires e != o
    ensures d.category == category && d.blocking && Unpaired(e, o, d)
  {
    if v :| v in e && v !in o {
      d := OneSided(category, CsharpOnly, true, v);
    } else {
      assert e <= o;
      var v :| v in o && v !in e;
      d := OneSided(category, CppOnly, true, v);
    }
  }

  lemma StructureBlocks(a: Projection, b: Projection, types: bool) returns (d: Difference)
    requires !SameStructure(a, b)
    ensures Blocks(a, b, types, d)
  {
    hide Unpaired;
    if a.iedName != b.iedName {
      d := Difference(IedIdentity, Different, "", a.iedName, b.iedName, true);
    } else if a.logicalDevices != b.logicalDevices {
      d := Unequal(LogicalDevice, a.logicalDevices, b.logicalDevices);
    } else if a.logicalNodes != b.logicalNodes {
      d := Unequal(LogicalNode, a.logicalNodes, b.logicalNodes);
    } else if a.dataObjects != b.dataObjects {
      d := Unequal(DataObject, a.dataObjects, b.dataObjects);
    } else if a.dataAttributes != b.dataAttributes {
      d := Unequal(DataAttribute, a.dataAttributes, b.dataAttributes);
    } else if a.reportControls != b.reportControls {
      d := Unequal(ReportControl, a.reportControls, b.reportControls);
    } else {
      d := Unequal(ControlBlock, a.controlBlocks, b.controlBlocks);
    }
  }

  lemma TypesBlock(a: Projection, b: Projection) returns (d: Difference)
    requires !SameTypes(a, b)
    ensures Blocks(a, b, true, d)
  {
    var x :| x in a.dataAttributes && x in b.dataAttributes && x in a.attributeTypes && x in b.attributeTypes
             && a.attributeTypes[x] != b.attributeTypes[x]
             && |a.attributeTypes[x]| != 0 && |b.attributeTypes[x]| != 0;
    d := Difference(TypeSignature, Different, x, a.attributeTypes[x], b.attributeTypes[x], true);
  }

  lemma NothingBlocks(a: Projection, b: Projection, types: bool, d: Difference)
    requires SameStructure(a, b) && (types ==> SameTypes(a, b))
    ensures !Blocks(a, b, types, d)
  {
  }

  /** Nothing in the report blocks exactly if structure and, where compared, signatures agree. */
  lemma CompatibleExactly(a: Projection, b: Projection, types: bool, runtime: bool)
    ensures (forall d :: d in Report(a, b, types, runtime) ==> !d.blocking) <==>
            SameStructure(a, b) && (types ==> SameTypes(a, b))
  {
    hide Report, SameStructure, SameTypes, Differs;
    var report := Report(a, b, types, runtime);
    forall d ensures d in report && d.blocking <==> Blocks(a, b, types, d) {
      ReportedExactly(a, b, types, runtime, d);
    }
    hide Blocks;
    if !SameStructure(a, b) {
      var d := StructureBlocks(a, b, types);
      assert d in report && d.blocking;
    } else if types && !SameTypes(a, b) {
      var d := TypesBlock(a, b);
      assert d in report && d.blocking;
    } else {
      forall d | d in report ensures !d.blocking {
        NothingBlocks(a, b, types, d);
      }
    }
  }

  /** blocking_count. */
  function BlockingCount(ds: seq<Difference>): nat {
    if ds == [] then 0 else BlockingCount(ds[..|ds| - 1]) + if ds[|ds| - 1].blocking then 1 else 0
  }

  lemma {:induction false} NoneBlocking(ds: seq<Difference>)
    ensures BlockingCount(ds) == 0 <==> forall d :: d in ds ==> !d.blocking
  {
    if ds != [] {
      var front, last := ds[..|ds| - 1], ds[|ds| - 1];
      NoneBlocking(front);
      assert ds == front + [last];
    }
  }

  // ----- The comparator

  class Comparison {
    var differences: seq<Difference>

    constructor ()
      ensures differences == []
    {
      differences := [];
    }

    method IsCompatible() returns (compatible: bool)
      ensures compatible <==> forall d :: d in differences ==> !d.blocking
    {
      NoneBlocking(differences);
      compatible := BlockingCount(differences) == 0;
    }

    method Append(d: Difference)
      modifies this
      ensures differences == old(differences) + [d]
    {
      differences := differences + [d];
    }

    /** One difference for each value of one side, in some order. */
    method AppendAll(category: Category, side: Side, values: set<Text>, blocking: bool)
      modifies this
      ensures multiset(differences) == multiset(old(differences)) + multiset(OneSide(category, side, blocking, values))
    {
      var rest := values;
      ghost var done: set<Text> := {};
      while rest != {}
        invariant rest == values - done && done <= values
        invariant multiset(differences)
               == multiset(old(differences)) + multiset(OneSide(category, side, blocking, done))
        decreases rest
      {
        hide OneSide;
        var v :| v in rest;
        var d := OneSided(category, side, blocking, v);
        OneValueMore(category, side, blocking, done, v);
        Append(d);
        rest, done := rest - {v}, done + {v};
      }
      assert done == values;
    }

    /** _compare_set: exactly what either side lacks is reported. */
    method CompareSet(category: Category, expected: set<Text>, observed: set<Text>, blocking: bool)
      modifies this
      ensures multiset(differences) == multiset(old(differences)) + Lacking(category, expected, observed, blocking)
    {
      AppendAll(category, CsharpOnly, expected - observed, blocking);
      AppendAll(category, CppOnly, observed - expected, blocking);
    }

    /** The loop over the attributes both sides have: each clash of signatures is reported. */
    method CompareSignatures(a: Projection, b: Projection)
      modifies this
      ensures multiset(differences)
           == multiset(old(differences)) + multiset(Clashes(a, b, a.dataAttributes * b.dataAttributes))
    {
      var common := a.dataAttributes * b.dataAttributes;
      var rest := common;
      ghost var done: set<Text> := {};
      hide Clash, Signature;
      while rest != {}
        invariant rest == common - done && done <= common
        invariant multiset(differences) == multiset(old(differences)) + multiset(Clashes(a, b, done))
        decreases rest
      {
        var x :| x in rest;
        if Clash(a, b, x) {
          OneMore(Clashes(a, b, done), Clashing(a, b, x), Clashes(a, b, done + {x}));
          Append(Clashing(a, b, x));
        } else {
          assert Clashes(a, b, done + {x}) == Clashes(a, b, done);
        }
        rest, done := rest - {x}, done + {x};
      }
      assert done == common;
    }

    /** Reports one respect more, if the two views differ there. */
    method Note(found: bool, d: Difference, ghost was: seq<Difference>, ghost i: nat, ghost left: RcbRuntime,
                ghost right: RcbRuntime)
      requires i < |RESPECTS| && d == Observed(RESPECTS[i], d.value, left, right)
      requires found <==> Disagrees(RESPECTS[i], left, right)
      requires Noted(was, differences, d.value, left, right, RESPECTS[..i])
      modifies this
      ensures Noted(was, differences, d.value, left, right, RESPECTS[..i + 1])
    {
      hide Views, Disagrees;
      assert RESPECTS[..i + 1] == RESPECTS[..i] + [RESPECTS[i]];
      assert RESPECTS[i] !in RESPECTS[..i];
      if found {
        OneMore(Contradictions(d.value, left, right, RESPECTS[..i]), d,
                Contradictions(d.value, left, right, RESPECTS[..i + 1]));
        Append(d);
      } else {
        assert Contradictions(d.value, left, right, RESPECTS[..i + 1])
            == Contradictions(d.value, left, right, RESPECTS[..i]);
      }
    }

    /** DataSet, enable and reservation. */
    method CompareValues(reference: Text, left: RcbRuntime, right: RcbRuntime)
      modifies this
      ensures Noted(old(differences), differences, reference, left, right, RESPECTS[..4])
    {
      hide Noted, Contradict, Unread, Implied;
      ghost var was := differences;
      NothingNoted(was, reference, left, right);
      Note(left.dataSet != right.dataSet,
           Difference(RuntimeRcbDataSet, Different, reference, left.dataSet, right.dataSet, false),
           was, 0, left, right);
      Note(Contradict(left.enabled, right.enabled),
           Difference(RuntimeRcbEnabled, Different, reference, left.enabled, right.enabled, false),
           was, 1, left, right);
      Note(Contradict(left.reservation, right.reservation),
           Difference(RuntimeRcbReservation, Different, reference, left.reservation, right.reservation, false),
           was, 2, left, right);
      Note(Contradict(left.reservationTime, right.reservationTime),
           Difference(RuntimeRcbReservationTime, Different, reference, left.reservationTime, right.reservationTime,
                      false),
           was, 3, left, right);
    }

    /** One control block seen by both: exactly the respects in which they contradict each other are reported. */
    method CompareBlock(reference: Text, left: RcbRuntime, right: RcbRuntime)
      modifies this
      ensures multiset(differences)
           == multiset(old(differences)) + multiset(Contradictions(reference, left, right, RESPECTS))
    {
      hide Noted, Contradict, Unread, Implied;
      ghost var was := differences;
      CompareValues(reference, left, right);
      var unread, implied := Unread(right), Implied(left);
      Note(unread && left.readEvidence,
           Difference(RuntimeRcbReadEvidence, Different, reference, "read", right.binding, false),
           was, 4, left, right);
      Note(!unread && left.readEvidence && Contradict(implied, right.binding),
           Difference(RuntimeRcbBinding, Different, reference, implied, right.binding, false),
           was, 5, left, right);
      AllNoted(was, differences, reference, left, right);
    }

    /**
     _compare_rcb_runtime: reported are the blocks that one side lacks and, for those both
     have, exactly the attributes in which they contradict each other.
     */
    method CompareRuntime(a: map<Text, RcbRuntime>, b: map<Text, RcbRuntime>)
      modifies this
      ensures multiset(differences) == multiset(old(differences)) + RuntimeBlocks(a, b)
    {
      CompareSet(RuntimeRcb, a.Keys, b.Keys, false);
      CompareCommon(a, b);
    }

    method CompareCommon(a: map<Text, RcbRuntime>, b: map<Text, RcbRuntime>)
      modifies this
      ensures multiset(differences)
           == multiset(old(differences)) + multiset(AllContradictions(a, b, a.Keys * b.Keys))
    {
      hide AllContradictions, Contradictions;
      NoBlocks(a, b);
      ghost var sets := differences;
      var common := a.Keys * b.Keys;
      var rest := common;
      ghost var done: set<Text> := {};
      while rest != {}
        invariant rest == common - done && done <= common
        invariant multiset(differences) == multiset(sets) + multiset(AllContradictions(a, b, done))
        decreases rest
      {
        var reference :| reference in rest;
        CompareBlock(reference, a[reference], b[reference]);
        OneBlockMore(a, b, done, reference);
        rest, done := rest - {reference}, done + {reference};
      }
      assert done == common;
    }

    /** The identity and the six structural sets. */
    method CompareStructure(a: Projection, b: Projection)
      modifies this
      ensures multiset(differences) == multiset(old(differences)) + Structural(a, b)
    {
      hide Lacking;
      if a.iedName != b.iedName {
        Append(Difference(IedIdentity, Different, "", a.iedName, b.iedName, true));
      }
      assert multiset(differences) == multiset(old(differences)) + multiset(Identity(a, b));
      CompareSet(LogicalDevice, a.logicalDevices, b.logicalDevices, true);
      CompareSet(LogicalNode, a.logicalNodes, b.logicalNodes, true);
      CompareSet(DataObject, a.dataObjects, b.dataObjects, true);
      CompareSet(DataAttribute, a.dataAttributes, b.dataAttributes, true);
      CompareSet(ReportControl, a.reportControls, b.reportControls, true);
      CompareSet(ControlBlock, a.controlBlocks, b.controlBlocks, true);
    }

    /** Type templates and signatures. */
    method CompareTypes(a: Projection, b: Projection)
      modifies this
      ensures multiset(differences) == multiset(old(differences)) + Typed(a, b)
    {
      CompareSet(TypeTemplate, a.typeTemplates, b.typeTemplates, false);
      CompareSignatures(a, b);
    }

    /** DataSets, their members and the control blocks, as last seen. */
    method CompareObserved(a: Projection, b: Projection)
      modifies this
      ensures multiset(differences) == multiset(old(differences)) + Runtime(a, b)
    {
      CompareSet(RuntimeDataSet, a.dataSets, b.dataSets, false);
      CompareSet(RuntimeDataSetMember, a.dataSetMembers, b.dataSetMembers, false);
      CompareRuntime(a.reportRuntime, b.reportRuntime);
    }
  }

  /** Appended is what the two views of a block differ in, in these respects. */
  ghost predicate Noted(before: seq<Difference>, after: seq<Difference>, reference: Text, left: RcbRuntime,
                        right: RcbRuntime, respects: seq<Category>)
  {
    multiset(after) == multiset(before) + multiset(Contradictions(reference, left, right, respects))
  }

  lemma NothingNoted(ds: seq<Difference>, reference: Text, left: RcbRuntime, right: RcbRuntime)
    ensures Noted(ds, ds, reference, left, right, RESPECTS[..0])
  {
  }

  lemma AllNoted(before: seq<Difference>, after: seq<Difference>, reference: Text, left: RcbRuntime, right: RcbRuntime)
    requires Noted(before, after, reference, left, right, RESPECTS[..6])
    ensures multiset(after) == multiset(before) + multiset(Contradictions(reference, left, right, RESPECTS))
  {
    assert RESPECTS[..6] == RESPECTS;
  }

  lemma OneMore(s: set<Difference>, d: Difference, t: set<Difference>)
    requires d !in s && t == s + {d}
    ensures multiset(t) == multiset(s) + multiset{d}
  {
  }

  lemma OneValueMore(category: Category, side: Side, blocking: bool, done: set<Text>, v: Text)
    requires v !in done
    ensures multiset(OneSide(category, side, blocking, done + {v}))
         == multiset(OneSide(category, side, blocking, done)) + multiset{OneSided(category, side, blocking, v)}
  {
    OneMore(OneSide(category, side, blocking, done), OneSided(category, side, blocking, v),
            OneSide(category, side, blocking, done + {v}));
  }

  lemma NoBlocks(a: map<Text, RcbRuntime>, b: map<Text, RcbRuntime>)
    ensures AllContradictions(a, b, {}) == {}
  {
  }

  lemma OneBlockMore(a: map<Text, RcbRuntime>, b: map<Text, RcbRuntime>, done: set<Text>, r: Text)
    requires done <= a.Keys && done <= b.Keys && r !in done && r in a && r in b
    ensures multiset(AllContradictions(a, b, done + {r}))
         == multiset(AllContradictions(a, b, done)) + multiset(Contradictions(r, a[r], b[r], RESPECTS))
  {
    hide Views, Disagrees;
    var before, one := AllContradictions(a, b, done), Contradictions(r, a[r], b[r], RESPECTS);
    assert AllContradictions(a, b, done + {r}) == before + one;
    assert before !! one;
  }

  /**
   compare: the report is the one described, each difference in it once. The two are
   compatible exactly if identity and all six structural sets agree and, with types on, no
   attribute both sides know has contradicting signatures. Whether runtime is compared
   makes no difference to that.
   */
  method Compare(a: Projection, b: Projection, compareTypes: bool, compareRuntime: bool)
    returns (result: Comparison, compatible: bool)
    ensures fresh(result) && multiset(result.differences) == Report(a, b, compareTypes, compareRuntime)
    ensures compatible <==> SameStructure(a, b) && (compareTypes ==> SameTypes(a, b))
  {
    hide Structural, Typed, Runtime, SameStructure, SameTypes;
    result := new Comparison();
    result.CompareStructure(a, b);
    if compareTypes {
      result.CompareTypes(a, b);
    }
    if compareRuntime {
      result.CompareObserved(a, b);
    }
    compatible := result.IsCompatible();
    CompatibleExactly(a, b, compareTypes, compareRuntime);
    assert forall d :: d in result.differences <==> d in multiset(result.differences);
  }
}
