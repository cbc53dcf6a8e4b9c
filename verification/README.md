# ns-3 attribute iterator and LTE UE PHY index arithmetic, in Dafny

This project models two pieces of ns-3.

**The config-store's `AttributeIterator`.** It is a depth-first walker over the live object graph. It has two pieces of state:

- `m_currentPath`, a stack of path segments;
- `m_examined`, a stack of objects.

It emits hook calls while it walks:

- enter and exit for root objects, aggregates, pointer attributes, vector attributes and items, and map attributes and items;
- one visit per settable value attribute.

**The integer arithmetic inside the LTE UE physical layer:**

- translating a downlink DCI's RBG bitmap and an uplink DCI's start/length into resource-block lists;
- the fatal error on an unsupported downlink resource-allocation type;
- the P10 wideband and A30 subband CQI averages;
- the rule that decides when each periodic CQI report is due.

The modules are:

- `ObjectGraph` (object_graph.dfy): the object graph, frozen into an immutable arena `map<Handle, Node>`. A node carries:
  - its type chain, most-derived type first;
  - each type's attributes, already classified as pointer, object-vector, object-map or plain value. A plain value attribute carries its access flags and accessor capabilities.
  - the sequence its aggregate iterator yields.

  `Unexamined`, the number of arena objects not on the examined stack, is the termination measure.
- `Events` (events.dfy): one event per hook call. Each event records the segment stack the hook would see through `GetCurrentPath()`. It also defines bracket balance of a trace.
- `Paths` (paths.dfy): the rendering of the segment stack as a `/`-separated string. It proves that rendering is injective when segments contain no `/`, and it defines the decimal rendering of item indices.
- `Traversal` (traversal.dfy): a compositional reference definition of the trace `DoIterate` produces, and proofs that every piece of it is balanced and stays below the path it starts from.
- `AttributeIterator` (attribute_iterator.dfy): the iterator itself, with a functional state `Iterator(path, examined, trace)`.
  - The Start/End wrappers push and pop segments exactly as the C++ does.
  - `DoIterate` and its loops are methods shaped like the C++ loops. Each is proved to append exactly the reference trace and to leave both stacks as it found them.
- `Enumeration` (enumeration.dfy): what a walk enumerates at one level of the path, found by selecting events by path length:
  - the items of a vector, in order;
  - the entries of a map, in order;
  - the aggregates;
  - the settable attributes, type by type.
- `LteUePhy` (lte_ue_phy.dfy): the LTE helpers as methods over integers, with independent descriptions of their results and uniqueness lemmas for those descriptions.
- `Wrappers` (wrappers.dfy): `Option` and `Result`.

Unless a row says otherwise, its source is src/config-store/model/attribute-iterator.cc.

**Exit hooks see the popped path.** Some descriptions of the iterator say an exit hook observes the path before its segments are popped. The code pops first and then calls the `DoEnd*` hook (lines 170-171, 184-186, 198-199, 215-217, 232-233, 251-253). The model follows the code: every exit event records the stack as it was before the matching enter.

## Model

| member | source | states |
|---|---|---|
| AttributeIterator.Iterate | src/config-store/model/attribute-iterator.cc:39-51 | Visits each root object in order, wrapped in an object enter/exit pair. Ends with the path and examined stacks both empty. The whole trace is bracket-balanced. |
| AttributeIterator.IsExamined | src/config-store/model/attribute-iterator.cc:53-64 | The linear scan answers true exactly when the object is on the examined stack. |
| AttributeIterator.DoIterate | src/config-store/model/attribute-iterator.cc:256-364 | Appends exactly the reference walk of the object to the trace. Leaves both the path stack and the examined stack as it found them. On an object already examined it changes nothing at all. |
| AttributeIterator.VisitTypeAttributes | src/config-store/model/attribute-iterator.cc:268-339 | The loop over one type's attributes appends each attribute's reference events, in declaration order, and restores both stacks. |
| AttributeIterator.VisitOneAttribute | src/config-store/model/attribute-iterator.cc:270-338 | Dispatches one attribute by kind. A null pointer and a value attribute that is not fully settable emit nothing. A settable value attribute emits one visit at path + [name]. The stacks are restored. |
| AttributeIterator.WalkExamined | src/config-store/model/attribute-iterator.cc:282-284 | Descends into a child with the parent pushed on the examined stack and popped afterwards. The child is walked with the parent counted as examined, and the examined stack is restored. |
| AttributeIterator.VisitPointer | src/config-store/model/attribute-iterator.cc:271-288 | A non-null pointer appends a pointer enter at path + [name, $Type], the pointee's walk, and the exit. The stacks are restored. |
| AttributeIterator.VisitVector | src/config-store/model/attribute-iterator.cc:289-310 | Appends the array enter/exit pair around one item pair per element, in index order. This holds even for an empty vector. The stacks are restored. |
| AttributeIterator.VisitArrayItem | src/config-store/model/attribute-iterator.cc:298-307 | Item j is entered at path + [decimal j, $Type] and then walked with the owner examined. The stacks are restored. |
| AttributeIterator.VisitMap | src/config-store/model/attribute-iterator.cc:311-329 | Appends the map enter/exit pair around one item pair per entry, in iteration order. This holds even for an empty map. The stacks are restored. |
| AttributeIterator.VisitMapItem | src/config-store/model/attribute-iterator.cc:318-326 | Entry j is entered at path + [decimal key, $Type] and then walked with the owner examined. The stacks are restored. |
| AttributeIterator.VisitAggregates | src/config-store/model/attribute-iterator.cc:341-363 | Appends the reference aggregate walk: nothing if any aggregate is already examined, else every aggregate wrapped in an object enter/exit. The stacks are restored. |
| AttributeIterator.FindExaminedAggregate | src/config-store/model/attribute-iterator.cc:341-350 | The first pass reports true exactly when some aggregate is on the examined stack. |
| AttributeIterator.VisitPeer | src/config-store/model/attribute-iterator.cc:353-362 | One aggregate is entered at path + [$Type] and walked with the owner examined. The stacks are restored. |
| AttributeIterator.VisitAttributeRestores | src/config-store/model/attribute-iterator.cc:153-159 | `VisitAttribute` reports the path with the name pushed, restores the path, and leaves the examined stack alone. |
| AttributeIterator.OneSegmentPairsRestore | src/config-store/model/attribute-iterator.cc:161-234 | The object, array-attribute and map-attribute enters each push one segment: `$Type` or the attribute name. Their exits pop it again. |
| AttributeIterator.TwoSegmentPairsRestore | src/config-store/model/attribute-iterator.cc:173-254 | The pointer, array-item and map-item enters each push two segments: name or decimal index, then `$Type`. Their exits pop both. |
| Paths.CurrentPath | src/config-store/model/attribute-iterator.cc:66-79 | With a non-empty attribute name, the result is the rendering of the stack with the name pushed. With an empty one, it is the rendering of the stack alone. |
| Paths.RenderConcat | src/config-store/model/attribute-iterator.cc:81-90 | Rendering distributes over concatenation of segment stacks. |
| Paths.RenderPrefix | src/config-store/model/attribute-iterator.cc:81-90 | A deeper stack renders as an extension of the path of a shallower one. |
| Paths.ParseRender | src/config-store/model/attribute-iterator.cc:81-90 | When no segment contains '/', splitting the rendered path on '/' recovers the stack. |
| Paths.RenderInjective | src/config-store/model/attribute-iterator.cc:81-90 | Two '/'-free stacks that render to the same path are equal. |
| Paths.Decimal | src/config-store/model/attribute-iterator.cc:206-208 | The `oss << index` rendering is a non-empty digit string without a leading zero. |
| Paths.ParseDecimalOfDecimal | src/config-store/model/attribute-iterator.cc:206-208 | Reading the decimal rendering back gives the index. |
| Paths.DecimalSlashFree | src/config-store/model/attribute-iterator.cc:240-243 | Index segments never contain '/', so item paths stay parseable. |
| ObjectGraph.PushShrinks | src/config-store/model/attribute-iterator.cc:282-284 | Pushing a not-yet-examined object strictly shrinks the set of unexamined objects, so every recursive descent terminates, cycles included. |
| Events.BalancedConcat | src/config-store/model/attribute-iterator.cc:39-51 | Consecutive balanced traces make a balanced trace. |
| Events.BalancedWrap | src/config-store/model/attribute-iterator.cc:161-254 | A matching enter/exit pair around a balanced trace is balanced. |
| Traversal.WalkNested | src/config-store/model/attribute-iterator.cc:256-364 | A walk's trace is balanced. Every event in it observes an extension of the starting path, and every enter or visit observes a strictly longer one. |
| Traversal.WalkRootsBalanced | src/config-store/model/attribute-iterator.cc:39-51 | The trace of the root loop is balanced. |
| Enumeration.PointerEnumerated | src/config-store/model/attribute-iterator.cc:271-288 | A null pointer emits no events. A set pointer's trace starts with the pointer enter at path + [name, $Type] and ends with the exit at the original path. That enter is the only enter at its depth. |
| Enumeration.VectorEnumerated | src/config-store/model/attribute-iterator.cc:289-310 | A vector's trace starts with the array enter at path + [name] and ends with its exit, even when the vector is empty. The enters one level further down are exactly the item enters, one per element in index order, each at [name, decimal j, $Type]. |
| Enumeration.MapEnumerated | src/config-store/model/attribute-iterator.cc:311-329 | A map's trace starts with the map enter at path + [name] and ends with its exit, even when the map is empty. The enters one level further down are exactly the entry enters, one per entry in order, each at [name, decimal key, $Type]. |
| Enumeration.AggregatesEnumerated | src/config-store/model/attribute-iterator.cc:341-363 | If any aggregate is already examined, the aggregate walk is empty. Otherwise the object enters at the object's level are exactly one per aggregate, in iterator order, each at path + [$Type]. |
| Enumeration.AggregatesVisitNothing | src/config-store/model/attribute-iterator.cc:341-363 | Aggregates contribute no attribute visits at the owner's level. |
| Enumeration.AttributeVisits | src/config-store/model/attribute-iterator.cc:330-338 | One attribute yields a visit at its own level if and only if it is a value attribute with ATTR_GET, a getter, ATTR_SET and a setter. Pointers, vectors and maps yield none there. |
| Enumeration.WalkVisits | src/config-store/model/attribute-iterator.cc:263-340 | An examined object visits nothing. Otherwise the visits at the object's level are exactly its settable attributes: type by type from the instance type up to but excluding the parentless root type, and in declaration order within each type. |
| LteUePhy.DlRbsFromBitmap | src/lte/model/lte-ue-phy.cc:393-408 | The RB list is strictly ascending. It contains exactly the RBs of the RBGs whose bitmap bit is set, and its length is popcount × rbgSize. With rbgSize ≤ 0 it is empty. |
| LteUePhy.DlRbsBelowSpec | src/lte/model/lte-ue-phy.cc:396-408 | After the loop has looked at bits 0..n-1, the collected list is ascending, below n·rbgSize, holds exactly the allocated RBs of those RBGs, and has popcount × rbgSize elements. |
| LteUePhy.MaskedBitIsBitSet | src/lte/model/lte-ue-phy.cc:396-407 | The loop's test `((m_rbBitmap & mask) >> i) == 1`, with the mask shifted i times from 1, holds exactly when bit i of the bitmap is set. |
| LteUePhy.DlAllocationUnique | src/lte/model/lte-ue-phy.cc:396-408 | Only one RB list is ascending with exactly the allocated RBs, so the description fixes the translation's output. |
| LteUePhy.UlRbs | src/lte/model/lte-ue-phy.cc:419-425 | The uplink list is rbStart, rbStart+1, …, rbStart+rbLen-1. It contains exactly the RBs in that range and nothing else. |
| LteUePhy.ReceiveIdealControlMessage | src/lte/model/lte-ue-phy.cc:377-436 | Fails exactly on a DL DCI with resAlloc ≠ 0. A DL DCI sets only the reception RBs, to the bitmap's allocation. A UL DCI sets the transmission RBs and forwards the message to the MAC. Anything else is only forwarded. |
| LteUePhy.WidebandCqi | src/lte/model/lte-ue-phy.cc:313-323 | The P10 value times the RB count is at most the CQI sum, and the sum is less than one RB count more than that. |
| LteUePhy.WidebandIsFloorMean | src/lte/model/lte-ue-phy.cc:313-323 | The wideband CQI is exactly the floor of the mean CQI. |
| LteUePhy.SubbandCqis | src/lte/model/lte-ue-phy.cc:329-350 | The A30 list has one value per complete RBG, in order, each that RBG's CQI sum divided by rbgSize. A trailing partial RBG is dropped, and rbgSize ≤ 0 gives no values. |
| LteUePhy.SubbandComplete | src/lte/model/lte-ue-phy.cc:339-349 | Closing a full RBG appends that RBG's mean and resets the running sum and count. |
| LteUePhy.SubbandUnique | src/lte/model/lte-ue-phy.cc:335-350 | The subband description fixes the list. |
| LteUePhy.UniformCqi | src/lte/model/lte-ue-phy.cc:313-350 | When every RB reports the same CQI c, the wideband value and every subband value are c. |
| LteUePhy.CreateDlCqiFeedbackMessage | src/lte/model/lte-ue-phy.cc:299-361 | Produces a P10 report exactly when P10 is due, an A30 report exactly when only A30 is due, and otherwise an element with no report. The report carries the RNTI and the correct averages. |
| LteUePhy.InitialSchedule | src/lte/model/lte-ue-phy.cc:105-108 | From the constructor's timers, P10 is first due strictly after 160 ms and A30 strictly after 1 ms, so A30 is always due when P10 first is. |
| LteUePhy.GenerateCqiFeedback | src/lte/model/lte-ue-phy.cc:275-295 | Sends one report per due timer, P10 first, and moves only the due timers' last-sent time to now. Neither report is due again until its period has passed after now. When both are due and the P10 period is non-negative, the second message is an A30 report. With a negative P10 period the re-check still finds P10 due, so the second message is a P10 report again. |

## Left out

- The default `Do*` hooks (attribute-iterator.cc:92-151) and subclass overrides. Each hook call is recorded as an event instead, because overrides can do anything and nothing here can see them.
- `NS_LOG_*` output: it is logging only.
- The external object model: `Config::GetRootNamespaceObject*`, `TypeId`, `GetAttribute`, the checkers and `Object::AggregateIterator` are frozen into the immutable graph.
  - The three checker `dynamic_cast`s are tried in a fixed order: pointer, vector, map. Each attribute is modelled as exactly one of those kinds, so that order has no observable effect.
  - The aggregate sequence is taken as given, with no assumption about whether it contains the object itself.
- Pointer identity: `Ptr<Object>` equality is handle equality.
- The LTE SAP forwarders (lte-ue-phy.cc:49-85), `DoDispose`, and `SubframeIndication`. These forwarders are thin wrappers.
- Device lookup and the routing of sent messages (`DoSendIdealControlMessage`): a sent report is returned instead.
- `Simulator::Now`: the current time is a parameter, in nanoseconds as an unbounded integer, so 64-bit time overflow is not modelled.
- The floating-point LTE code (spectrum PSD creation, TxPower and NoiseFigure).
- `LteAmc::CreateCqiFeedbacks`, which maps SINR to CQIs: the CQI vector is an input.
- regression/tests/test-tcp-nonlistening-server.py: it is shell, archive and diff I/O with no logic to model.
- LteUePhy.WidebandCqi: requires a non-empty CQI vector whose sum lies in 0..65535. The source converts the `double` sum with `(uint16_t)` and then divides by the vector's length. For a sum outside the uint16 range that conversion is undefined behaviour in C++, and for an empty vector the integer division by zero is too, so those inputs are excluded rather than given a result.
- LteUePhy.SubbandCqis: requires every complete RBG's CQI sum to lie in 0..65535, because the `(uint16_t)` conversion of a sum outside that range is undefined behaviour. The RBG size is an integer parameter rather than a bandwidth lookup.
- Null elements: vector items, map values, aggregates and root objects are handles to objects, with no null. The source checks only pointer attributes for null (attribute-iterator.cc:279). It dereferences the other four without a check, through `GetInstanceTypeId()` at lines 164, 209 and 243, so a null there crashes the source. The model assumes those elements are non-null.
- LteUePhy.CreateDlCqiFeedbackMessage: the fixed fields `m_ri = 1` and the PMI values `0` are not carried in the report.
