/** The problem-reporting adapter of the explicit-size-check rule
    (src/rules/explicit-size-check/util.ts): a listener may return nothing,
    one problem or an iterable of problems; every problem is reported with its
    fix functions wrapped so that an aborted fix yields no edits at all, and
    with the problem's data merged into each suggestion's data. Listeners
    registered through `on`/`onExit` are kept in a table keyed by selector. */
module Reporting {
  import opened Js

  /** A text edit produced by the host's fixer (a `RuleFix`): replace the
      characters of `range` (start, end offsets) by `text`. */
  datatype Edit = Edit(range: (int, int), text: string)

  /** How a throw inside a fix ends: the abort signal of `fixOptions.abort()`
      (a `FixAbortError`) or any other error. */
  datatype Failure = AbortSignal | OtherError(message: string)

  /** One step of draining a fix generator: it yields an edit, or it throws.
      A generator whose steps run out has returned normally. */
  datatype Step = Yield(edit: Edit) | Throw(failure: Failure)

  /** What calling a fix function gives. */
  datatype FixValue =
    | Generated(steps: seq<Step>)   // a generator object: iterable and lazy
    | EditArray(edits: seq<Edit>)   // an array of edits: iterable
    | Plain(edit: Option<Edit>)     // a single `RuleFix` object, or `undefined`
    | Thrown(failure: Failure)      // the call itself threw

  /** The shape of a JavaScript value, as far as `isIterable` can see it. */
  datatype Shape =
    | NullShape
    | UndefinedShape
    | PrimitiveShape(typeOf: string)
    | FunctionShape(hasIterator: bool)
    | ObjectShape(hasIterator: bool)

  /** `isIterable`: non-null, `typeof` is "object", and has `Symbol.iterator`.
      Strings and functions are primitives or functions, so never iterable here. */
  predicate IsIterable(v: Shape) {
    v.ObjectShape? && v.hasIterator
  }

  lemma IsIterableExactly(v: Shape)
    ensures IsIterable(v) <==> v == ObjectShape(true)
  {
  }

  function ShapeOfFix(v: FixValue): Shape {
    match v
    case Generated(_) => ObjectShape(true)
    case EditArray(_) => ObjectShape(true)
    case Plain(Some(_)) => ObjectShape(false)
    case Plain(None) => UndefinedShape
    case Thrown(_) => UndefinedShape
  }

  /** A `fix` field of a problem or suggestion. `WrappedFix(f)` is the closure
      that `wrapFixFunction(f)` returns; it is only ever built around a field
      that is a function, so values such as `WrappedFix(NoFix)` never occur
      (`Call` requires `IsFunction`). */
  datatype FixField =
    | NoFix
    | NotAFunction
    | FixFunction(result: FixValue)
    | WrappedFix(inner: FixField)

  /** `typeof fix === "function"` */
  predicate IsFunction(f: FixField) {
    match f
    case FixFunction(_) => true
    case WrappedFix(g) => IsFunction(g)
    case _ => false
  }

  /** The position of the first step that throws, or |steps| if none does. */
  function FirstThrow(steps: seq<Step>): (k: nat)
    ensures k <= |steps|
    ensures forall i :: 0 <= i < k ==> steps[i].Yield?
    ensures k < |steps| ==> steps[k].Throw?
  {
    if steps == [] then 0
    else if steps[0].Throw? then 0
    else 1 + FirstThrow(steps[1..])
  }

  /** The edits of a run of yield steps. */
  function YieldedEdits(steps: seq<Step>): (edits: seq<Edit>)
    requires forall i :: 0 <= i < |steps| ==> steps[i].Yield?
    ensures |edits| == |steps|
    ensures forall i :: 0 <= i < |steps| ==> edits[i] == steps[i].edit
  {
    if steps == [] then [] else [steps[0].edit] + YieldedEdits(steps[1..])
  }

  /** `Array.from(generator)` inside the try/catch of `wrapFixFunction`, one
      step at a time: all edits in order if the generator returns, `undefined`
      when the abort signal is thrown, the error itself otherwise. */
  function Drained(steps: seq<Step>): (v: FixValue)
    ensures FirstThrow(steps) == |steps| ==> v == EditArray(YieldedEdits(steps))
    ensures FirstThrow(steps) < |steps| ==>
              v == (if steps[FirstThrow(steps)].failure == AbortSignal then Plain(None)
                    else Thrown(steps[FirstThrow(steps)].failure))
  {
    if steps == [] then EditArray([])
    else
      match steps[0]
      case Throw(AbortSignal) => Plain(None)
      case Throw(f) => Thrown(f)
      case Yield(e) =>
        match Drained(steps[1..])
        case EditArray(es) => EditArray([e] + es)
        case other => other
  }

  /** What the closure built by `wrapFixFunction` returns, given what the
      wrapped fix returned. */
  function Wrapped(v: FixValue): (w: FixValue)
    ensures !IsIterable(ShapeOfFix(v)) ==> w == v
    ensures w.Generated? ==> false
  {
    match v
    case Generated(steps) => Drained(steps)
    case EditArray(edits) => EditArray(edits)
    case _ => v
  }

  /** The value returned by calling a fix field that is a function. */
  function Call(f: FixField): FixValue
    requires IsFunction(f)
  {
    match f
    case FixFunction(v) => v
    case WrappedFix(g) => Wrapped(Call(g))
  }

  /** `wrapFixFunction(fix)` */
  function WrapFixFunction(f: FixField): (g: FixField)
    requires IsFunction(f)
    ensures IsFunction(g)
    ensures Call(g) == Wrapped(Call(f))
  {
    WrappedFix(f)
  }

  /** An edit list escapes a wrapped generator only when no step threw, and it
      is then the whole list of yielded edits in order. */
  lemma NoPartialEdits(steps: seq<Step>, edits: seq<Edit>)
    requires Wrapped(Generated(steps)) == EditArray(edits)
    ensures forall i :: 0 <= i < |steps| ==> steps[i].Yield?
    ensures |edits| == |steps|
    ensures forall i :: 0 <= i < |steps| ==> edits[i] == steps[i].edit
  {
  }

  /** How the host applies the edits of one fix (not part of the adapter):
      it sorts them by range, start first and then end, and replaces each
      range in turn; overlapping edits are refused. */
  predicate EditPrecedes(a: Edit, b: Edit) {
    a.range.0 < b.range.0 || (a.range.0 == b.range.0 && a.range.1 <= b.range.1)
  }

  function InsertEdit(e: Edit, s: seq<Edit>): (r: seq<Edit>)
    ensures multiset(r) == multiset(s) + multiset{e}
  {
    if s == [] then [e]
    else if EditPrecedes(e, s[0]) then [e] + s
    else
      assert s == [s[0]] + s[1..];
      [s[0]] + InsertEdit(e, s[1..])
  }

  function SortEdits(s: seq<Edit>): (r: seq<Edit>)
    ensures multiset(r) == multiset(s)
  {
    if s == [] then []
    else
      assert s == [s[0]] + s[1..];
      InsertEdit(s[0], SortEdits(s[1..]))
  }

  /** The text from `pos` on, with the sorted `edits` applied. */
  function ApplySorted(text: string, pos: nat, edits: seq<Edit>): Option<string>
    decreases |edits|
  {
    if edits == [] then (if pos <= |text| then Some(text[pos..]) else None)
    else
      var e := edits[0];
      if pos <= e.range.0 <= e.range.1 <= |text| then
        match ApplySorted(text, e.range.1, edits[1..])
        case None => None
        case Some(rest) => Some(text[pos..e.range.0] + e.text + rest)
      else None
  }

  function ApplyEdits(text: string, edits: seq<Edit>): Option<string> {
    ApplySorted(text, 0, SortEdits(edits))
  }

  /** No edit leaves the text as it is; one edit replaces its range. */
  lemma ApplyEditsBasics(text: string, e: Edit)
    ensures ApplyEdits(text, []) == Some(text)
    ensures 0 <= e.range.0 <= e.range.1 <= |text| ==>
              ApplyEdits(text, [e]) == Some(text[..e.range.0] + e.text + text[e.range.1..])
  {
    assert text[0..] == text;
    if 0 <= e.range.0 <= e.range.1 <= |text| {
      assert SortEdits([e]) == [e];
      assert [e][1..] == [];
      assert ApplySorted(text, e.range.1, []) == Some(text[e.range.1..]);
      assert text[0..e.range.0] == text[..e.range.0];
    }
  }

  /** One edit replacing a piece of the text. */
  lemma ApplyReplace(pre: string, replaced: string, post: string, replacement: string)
    ensures ApplyEdits(pre + replaced + post, [Edit((|pre|, |pre| + |replaced|), replacement)])
            == Some(pre + replacement + post)
  {
    var text := pre + replaced + post;
    ApplyEditsBasics(text, Edit((|pre|, |pre| + |replaced|), replacement));
    assert text[..|pre|] == pre;
    assert text[|pre| + |replaced|..] == post;
  }

  /** A replacement, then an insertion at the start of the replaced piece:
      sorting puts the insertion first, so it lands before the
      replacement. */
  lemma ApplyReplaceThenInsert(pre: string, replaced: string, post: string, replacement: string, inserted: string)
    requires replaced != []
    ensures ApplyEdits(pre + replaced + post,
                       [Edit((|pre|, |pre| + |replaced|), replacement), Edit((|pre|, |pre|), inserted)])
            == Some(pre + inserted + replacement + post)
  {
    var text := pre + replaced + post;
    var r := Edit((|pre|, |pre| + |replaced|), replacement);
    var i := Edit((|pre|, |pre|), inserted);
    SortTwo(r, i);
    assert [i, r][1..] == [r];
    assert ApplySorted(text, |pre|, [r]) == Some(replacement + post) by {
      assert [r][1..] == [];
      assert ApplySorted(text, |pre| + |replaced|, []) == Some(post);
      assert text[|pre|..|pre|] + replacement + post == replacement + post;
    }
    assert text[0..|pre|] == pre;
    assert pre + inserted + (replacement + post) == pre + inserted + replacement + post;
  }

  /** Two edits out of order are swapped by sorting. */
  lemma SortTwo(a: Edit, b: Edit)
    requires !EditPrecedes(a, b)
    ensures SortEdits([a, b]) == [b, a]
  {
    assert [a, b][1..] == [b];
    assert [b][1..] == [];
    assert SortEdits([b]) == [b];
  }

  /** Wrapping twice behaves as wrapping once. */
  lemma WrapIdempotent(v: FixValue)
    ensures Wrapped(Wrapped(v)) == Wrapped(v)
  {
  }

  datatype Suggestion = Suggestion(messageId: string, data: Option<map<string, string>>, fix: FixField)

  /** A `suggest` field: absent, an array of suggestions, or something else. */
  datatype SuggestField = NoSuggest | SuggestArray(items: seq<Suggestion>) | NotAnArray

  /** A reported problem. `messageId` and `node` stand for all the fields the
      adapter leaves untouched. */
  datatype Problem = Problem(
    messageId: string,
    node: nat,
    data: Option<map<string, string>>,
    fix: FixField,
    suggest: SuggestField)

  function OrEmpty(d: Option<map<string, string>>): map<string, string> {
    if d.Some? then d.value else map[]
  }

  /** `{...(problem.data ?? {}), ...(suggest.data ?? {})}` */
  function MergeData(parent: Option<map<string, string>>, own: Option<map<string, string>>): (r: map<string, string>)
    ensures r.Keys == OrEmpty(parent).Keys + OrEmpty(own).Keys
    ensures forall k :: k in OrEmpty(own) ==> r[k] == OrEmpty(own)[k]
    ensures forall k :: k in OrEmpty(parent) && k !in OrEmpty(own) ==> r[k] == OrEmpty(parent)[k]
  {
    OrEmpty(parent) + OrEmpty(own)
  }

  function WrapIfFunction(f: FixField): FixField {
    if IsFunction(f) then WrapFixFunction(f) else f
  }

  /** A suggestion after reporting. */
  function PreparedSuggestion(parent: Option<map<string, string>>, s: Suggestion): Suggestion {
    Suggestion(s.messageId, Some(MergeData(parent, s.data)), WrapIfFunction(s.fix))
  }

  /** A problem after `reportListenerProblems` has updated it in place. */
  function Prepared(p: Problem): Problem {
    p.(fix := WrapIfFunction(p.fix),
       suggest := if p.suggest.SuggestArray?
                  then SuggestArray(seq(|p.suggest.items|, i requires 0 <= i < |p.suggest.items| =>
                                          PreparedSuggestion(p.data, p.suggest.items[i])))
                  else p.suggest)
  }

  /** Every field but `fix`, `suggest[i].fix` and `suggest[i].data` is kept;
      only fields holding functions are wrapped; each suggestion's data is the
      problem's data overlaid with its own. */
  lemma PreparedFields(p: Problem)
    ensures Prepared(p).messageId == p.messageId && Prepared(p).node == p.node
    ensures Prepared(p).data == p.data
    ensures IsFunction(p.fix) ==> Prepared(p).fix == WrappedFix(p.fix)
    ensures !IsFunction(p.fix) ==> Prepared(p).fix == p.fix
    ensures p.suggest.SuggestArray? <==> Prepared(p).suggest.SuggestArray?
    ensures !p.suggest.SuggestArray? ==> Prepared(p).suggest == p.suggest
    ensures p.suggest.SuggestArray? ==>
      var before, after := p.suggest.items, Prepared(p).suggest.items;
      && |after| == |before|
      && forall i :: 0 <= i < |before| ==>
           && after[i].messageId == before[i].messageId
           && after[i].data == Some(MergeData(p.data, before[i].data))
           && after[i].fix == (if IsFunction(before[i].fix) then WrappedFix(before[i].fix) else before[i].fix)
  {
  }

  /** What a listener returned. */
  datatype ListenerResult =
    | Falsy                        // undefined, null, false, 0 or ""
    | ProblemList(ps: seq<Problem>) // an array or other iterable of problems
    | OneProblem(p: Problem)        // a single problem object

  function ShapeOfResult(r: ListenerResult): Shape {
    match r
    case Falsy => UndefinedShape
    case ProblemList(_) => ObjectShape(true)
    case OneProblem(_) => ObjectShape(false)
  }

  /** The flat list `reportListenerProblems` walks, in order. */
  function Problems(r: ListenerResult): (ps: seq<Problem>)
    ensures r.Falsy? ==> ps == []
    ensures r.OneProblem? ==> ps == [r.p]
    ensures r.ProblemList? ==> ps == r.ps
  {
    if r.Falsy? then []
    else if IsIterable(ShapeOfResult(r)) then r.ps
    else [r.p]
  }

  function PrepareAll(ps: seq<Problem>): (qs: seq<Problem>)
    ensures |qs| == |ps|
  {
    if ps == [] then [] else [Prepared(ps[0])] + PrepareAll(ps[1..])
  }

  /** Each problem is reported once, prepared, in its position. */
  lemma {:induction false} PrepareAllAt(ps: seq<Problem>, i: nat)
    requires i < |ps|
    ensures PrepareAll(ps)[i] == Prepared(ps[i])
  {
    if i > 0 {
      PrepareAllAt(ps[1..], i - 1);
    }
  }

  lemma {:induction false} PrepareAllAppend(a: seq<Problem>, b: seq<Problem>)
    ensures PrepareAll(a + b) == PrepareAll(a) + PrepareAll(b)
  {
    if a == [] {
      assert a + b == b;
    } else {
      assert (a + b)[1..] == a[1..] + b;
      PrepareAllAppend(a[1..], b);
    }
  }

  lemma PrepareAllSnoc(ps: seq<Problem>, i: nat)
    requires i < |ps|
    ensures PrepareAll(ps[..i + 1]) == PrepareAll(ps[..i]) + [Prepared(ps[i])]
  {
    assert ps[..i + 1] == ps[..i] + [ps[i]];
    PrepareAllAppend(ps[..i], [ps[i]]);
  }

  /** The suggestion array of `p` with each suggestion's fix wrapped and data
      merged, built by the loop of `reportListenerProblems`. */
  method PrepareSuggestions(data: Option<map<string, string>>, items: seq<Suggestion>) returns (out: seq<Suggestion>)
    ensures |out| == |items|
    ensures forall i :: 0 <= i < |items| ==> out[i] == PreparedSuggestion(data, items[i])
  {
    out := [];
    for i := 0 to |items|
      invariant |out| == i
      invariant forall j :: 0 <= j < i ==> out[j] == PreparedSuggestion(data, items[j])
    {
      var s := items[i];
      var fix := s.fix;
      if IsFunction(fix) {
        fix := WrapFixFunction(fix);
      }
      out := out + [Suggestion(s.messageId, Some(MergeData(data, s.data)), fix)];
    }
  }

  /** The in-place updates of one problem before it is reported. */
  method PrepareProblem(p: Problem) returns (q: Problem)
    ensures q == Prepared(p)
  {
    q := p;
    if IsFunction(q.fix) {
      q := q.(fix := WrapFixFunction(q.fix));
    }
    if q.suggest.SuggestArray? {
      var items := PrepareSuggestions(p.data, q.suggest.items);
      assert items == Prepared(p).suggest.items;
      q := q.(suggest := SuggestArray(items));
    }
  }

  /** `wrapFixFunction`'s closure applied to a generator: drains it step by
      step; stops at the first throw. */
  method Drain(steps: seq<Step>) returns (v: FixValue)
    ensures v == Drained(steps)
  {
    var edits: seq<Edit> := [];
    var i := 0;
    while i < |steps|
      invariant 0 <= i <= |steps|
      invariant forall j :: 0 <= j < i ==> steps[j].Yield?
      invariant edits == YieldedEdits(steps[..i])
    {
      match steps[i]
      case Throw(f) =>
        DrainedAt(steps, i);
        if f == AbortSignal {
          return Plain(None);
        }
        return Thrown(f);
      case Yield(e) =>
        YieldedEditsSnoc(steps[..i + 1]);
        assert steps[..i + 1][..i] == steps[..i];
        edits := edits + [e];
        i := i + 1;
    }
    assert steps[..i] == steps;
    DrainedAt(steps, i);
    return EditArray(edits);
  }

  lemma YieldedEditsSnoc(s: seq<Step>)
    requires s != [] && forall i :: 0 <= i < |s| ==> s[i].Yield?
    ensures YieldedEdits(s) == YieldedEdits(s[..|s| - 1]) + [s[|s| - 1].edit]
  {
    var n := |s| - 1;
    var front := YieldedEdits(s[..n]);
    var whole := YieldedEdits(s);
    assert |whole| == |front + [s[n].edit]|;
    forall i | 0 <= i < |s|
      ensures whole[i] == (front + [s[n].edit])[i]
    {
      if i < n {
        assert s[..n][i] == s[i];
      }
    }
  }

  lemma DrainedAt(steps: seq<Step>, i: nat)
    requires i <= |steps|
    requires forall j :: 0 <= j < i ==> steps[j].Yield?
    requires i < |steps| ==> steps[i].Throw?
    ensures FirstThrow(steps) == i
  {
  }

  /** The host's `context` as the adapter sees it: a sink of reports. */
  class Reporter {
    var reported: seq<Problem>

    constructor ()
      ensures reported == []
    {
      reported := [];
    }

    /** `context.report(problem)` */
    method Report(p: Problem)
      modifies this
      ensures reported == old(reported) + [p]
    {
      reported := reported + [p];
    }

    /** `reportListenerProblems`: nothing for a falsy result; otherwise each
        problem once, in iteration order, after updating its fix and
        suggestion fields. */
    method ReportListenerProblems(r: ListenerResult)
      modifies this
      ensures reported == old(reported) + PrepareAll(Problems(r))
    {
      if r.Falsy? {
        return;
      }
      var problemList := if IsIterable(ShapeOfResult(r)) then r.ps else [r.p];
      ghost var start := reported;
      for i := 0 to |problemList|
        invariant reported == start + PrepareAll(problemList[..i])
      {
        var q := PrepareProblem(problemList[i]);
        PrepareAllSnoc(problemList, i);
        Report(q);
      }
      assert problemList[..|problemList|] == problemList;
    }
  }

  // ---------------------------------------------------------------------
  // The listener table of `reportProblems`

  type ListenerId = nat

  /** The `selectorOrSelectors` argument of `on`/`onExit`. */
  datatype Selectors = One(selector: string) | Many(selectors: seq<string>)

  /** A plain string acts as a one-element list. */
  function SelectorList(s: Selectors): (r: seq<string>)
    ensures s.One? ==> r == [s.selector]
    ensures s.Many? ==> r == s.selectors
  {
    match s
    case One(sel) => [sel]
    case Many(sels) => sels
  }

  /** A plain string acts as the one-element list holding it: `on(s, l)`
      and `on([s], l)` register alike, with a single `addListener`. */
  lemma PlainSelectorIsSingleton(m: map<string, seq<ListenerId>>, s: string, l: ListenerId)
    ensures AddAll(m, SelectorList(One(s)), l) == AddAll(m, SelectorList(Many([s])), l)
    ensures AddAll(m, SelectorList(One(s)), l) == Add(m, s, l)
  {
    assert [s][1..] == [];
  }

  function ExitSelector(s: string): string {
    s + ":exit"
  }

  function ExitSelectors(sels: seq<string>): (r: seq<string>)
    ensures |r| == |sels|
    ensures forall i :: 0 <= i < |sels| ==> r[i] == ExitSelector(sels[i])
  {
    if sels == [] then [] else [ExitSelector(sels[0])] + ExitSelectors(sels[1..])
  }

  function Lookup(m: map<string, seq<ListenerId>>, s: string): seq<ListenerId> {
    if s in m then m[s] else []
  }

  /** `addListener`: `listeners[selector] ??= []; listeners[selector].push(l)` */
  function Add(m: map<string, seq<ListenerId>>, s: string, l: ListenerId): (r: map<string, seq<ListenerId>>)
    ensures r.Keys == m.Keys + {s}
    ensures Lookup(r, s) == Lookup(m, s) + [l]
    ensures forall t :: t != s ==> Lookup(r, t) == Lookup(m, t)
  {
    m[s := Lookup(m, s) + [l]]
  }

  /** Registering `l` under each selector of `sels`, in order. */
  function AddAll(m: map<string, seq<ListenerId>>, sels: seq<string>, l: ListenerId): map<string, seq<ListenerId>>
    decreases |sels|
  {
    if sels == [] then m else AddAll(Add(m, sels[0], l), sels[1..], l)
  }

  /** One `l` for each occurrence of `s` in `sels`. */
  function Occurrences(sels: seq<string>, s: string, l: ListenerId): (r: seq<ListenerId>)
    ensures forall i :: 0 <= i < |r| ==> r[i] == l
    ensures |r| <= |sels|
  {
    if sels == [] then [] else (if sels[0] == s then [l] else []) + Occurrences(sels[1..], s, l)
  }

  /** Registration appends: a selector's list grows by `l` once per
      occurrence of that selector, after everything registered before. */
  lemma {:induction false} AddAllLookup(m: map<string, seq<ListenerId>>, sels: seq<string>, l: ListenerId, s: string)
    ensures Lookup(AddAll(m, sels, l), s) == Lookup(m, s) + Occurrences(sels, s, l)
    decreases |sels|
  {
    if sels != [] {
      AddAllLookup(Add(m, sels[0], l), sels[1..], l, s);
    }
  }

  lemma {:induction false} AddAllKeys(m: map<string, seq<ListenerId>>, sels: seq<string>, l: ListenerId)
    ensures AddAll(m, sels, l).Keys == m.Keys + set i | 0 <= i < |sels| :: sels[i]
    decreases |sels|
  {
    if sels != [] {
      AddAllKeys(Add(m, sels[0], l), sels[1..], l);
      assert (set i | 0 <= i < |sels| :: sels[i]) == {sels[0]} + set i | 0 <= i < |sels[1..]| :: sels[1..][i];
    }
  }

  /** The keys in first-registration order: `Object.entries(listeners)`. */
  function KeysAfter(order: seq<string>, sels: seq<string>): seq<string>
    decreases |sels|
  {
    if sels == [] then order
    else KeysAfter(if sels[0] in order then order else order + [sels[0]], sels[1..])
  }

  ghost predicate Distinct(s: seq<string>) {
    forall i, j :: 0 <= i < j < |s| ==> s[i] != s[j]
  }

  /** A call of `on` (exit == false) or `onExit` (exit == true) made while the
      rule's `create` runs. */
  datatype Registration = Registration(exit: bool, selectors: Selectors, listener: ListenerId)

  function ExpandedSelectors(r: Registration): seq<string> {
    if r.exit then ExitSelectors(SelectorList(r.selectors)) else SelectorList(r.selectors)
  }

  function ApplyRegistrations(m: map<string, seq<ListenerId>>, regs: seq<Registration>): map<string, seq<ListenerId>>
    decreases |regs|
  {
    if regs == [] then m
    else ApplyRegistrations(AddAll(m, ExpandedSelectors(regs[0]), regs[0].listener), regs[1..])
  }

  /** `Object.entries(create(contextProxy))`, each added in order. */
  function ApplyEntries(m: map<string, seq<ListenerId>>, entries: seq<(string, ListenerId)>): map<string, seq<ListenerId>>
    decreases |entries|
  {
    if entries == [] then m else ApplyEntries(Add(m, entries[0].0, entries[0].1), entries[1..])
  }

  function FromRegistrations(regs: seq<Registration>, s: string): seq<ListenerId> {
    if regs == [] then []
    else Occurrences(ExpandedSelectors(regs[0]), s, regs[0].listener) + FromRegistrations(regs[1..], s)
  }

  function FromEntries(entries: seq<(string, ListenerId)>, s: string): seq<ListenerId> {
    if entries == [] then []
    else (if entries[0].0 == s then [entries[0].1] else []) + FromEntries(entries[1..], s)
  }

  /** Every selector the registrations name, in call order. */
  function RegistrationSelectors(regs: seq<Registration>): seq<string> {
    if regs == [] then [] else ExpandedSelectors(regs[0]) + RegistrationSelectors(regs[1..])
  }

  function EntrySelectors(entries: seq<(string, ListenerId)>): (r: seq<string>)
    ensures |r| == |entries|
    ensures forall i :: 0 <= i < |entries| ==> r[i] == entries[i].0
  {
    if entries == [] then [] else [entries[0].0] + EntrySelectors(entries[1..])
  }

  lemma {:induction false} KeysAfterAppend(order: seq<string>, a: seq<string>, b: seq<string>)
    ensures KeysAfter(order, a + b) == KeysAfter(KeysAfter(order, a), b)
    decreases |a|
  {
    if a == [] {
      assert a + b == b;
    } else {
      assert (a + b)[1..] == a[1..] + b;
      KeysAfterAppend(if a[0] in order then order else order + [a[0]], a[1..], b);
    }
  }

  /** The selectors of the table in first-registration order. */
  function KeyOrderOf(regs: seq<Registration>, entries: seq<(string, ListenerId)>): seq<string> {
    KeysAfter(KeysAfter([], RegistrationSelectors(regs)), EntrySelectors(entries))
  }

  /** The table that `reportProblems` builds. */
  function ListenerTableOf(regs: seq<Registration>, entries: seq<(string, ListenerId)>): map<string, seq<ListenerId>> {
    ApplyEntries(ApplyRegistrations(map[], regs), entries)
  }

  lemma {:induction false} ApplyRegistrationsLookup(m: map<string, seq<ListenerId>>, regs: seq<Registration>, s: string)
    ensures Lookup(ApplyRegistrations(m, regs), s) == Lookup(m, s) + FromRegistrations(regs, s)
    decreases |regs|
  {
    if regs != [] {
      var m' := AddAll(m, ExpandedSelectors(regs[0]), regs[0].listener);
      AddAllLookup(m, ExpandedSelectors(regs[0]), regs[0].listener, s);
      ApplyRegistrationsLookup(m', regs[1..], s);
    }
  }

  lemma {:induction false} ApplyEntriesLookup(m: map<string, seq<ListenerId>>, entries: seq<(string, ListenerId)>, s: string)
    ensures Lookup(ApplyEntries(m, entries), s) == Lookup(m, s) + FromEntries(entries, s)
    decreases |entries|
  {
    if entries != [] {
      ApplyEntriesLookup(Add(m, entries[0].0, entries[0].1), entries[1..], s);
    }
  }

  /** For every selector, the listeners registered through `on`/`onExit`
      while `create` ran come first, in registration order, followed by the
      listeners of the map `create` returned. */
  lemma ListenerOrder(regs: seq<Registration>, entries: seq<(string, ListenerId)>, s: string)
    ensures Lookup(ListenerTableOf(regs, entries), s) == FromRegistrations(regs, s) + FromEntries(entries, s)
  {
    ApplyRegistrationsLookup(map[], regs, s);
    ApplyEntriesLookup(ApplyRegistrations(map[], regs), entries, s);
  }

  /** `onExit("X", l)` registers `l` under "X:exit" and nowhere else. */
  lemma OnExitSelector(m: map<string, seq<ListenerId>>, sel: string, l: ListenerId, t: string)
    ensures Lookup(AddAll(m, ExitSelectors(SelectorList(One(sel))), l), t)
         == Lookup(m, t) + (if t == sel + ":exit" then [l] else [])
  {
    AddAllLookup(m, ExitSelectors(SelectorList(One(sel))), l, t);
  }

  /** The listener table of `reportProblems`, built in place. */
  class ListenerTable {
    var listeners: map<string, seq<ListenerId>>
    var order: seq<string>

    ghost predicate Valid()
      reads this
    {
      && Distinct(order)
      && (forall k :: k in listeners <==> k in order)
    }

    constructor ()
      ensures Valid() && listeners == map[] && order == []
    {
      listeners := map[];
      order := [];
    }

    /** `addListener(selector, listener)` */
    method AddListener(selector: string, l: ListenerId)
      requires Valid()
      modifies this
      ensures Valid()
      ensures listeners == Add(old(listeners), selector, l)
      ensures order == KeysAfter(old(order), [selector])
    {
      if selector !in order {
        order := order + [selector];
      }
      listeners := Add(listeners, selector, l);
    }

    /** Registers `l` under every selector of `sels`, in order. */
    method AddEach(sels: seq<string>, l: ListenerId)
      requires Valid()
      modifies this
      ensures Valid()
      ensures listeners == AddAll(old(listeners), sels, l)
      ensures order == KeysAfter(old(order), sels)
    {
      for i := 0 to |sels|
        invariant Valid()
        invariant AddAll(listeners, sels[i..], l) == AddAll(old(listeners), sels, l)
        invariant KeysAfter(order, sels[i..]) == KeysAfter(old(order), sels)
      {
        assert sels[i..][1..] == sels[i + 1..];
        AddListener(sels[i], l);
      }
    }

    /** `context.on(selectorOrSelectors, listener)` */
    method On(s: Selectors, l: ListenerId)
      requires Valid()
      modifies this
      ensures Valid()
      ensures listeners == AddAll(old(listeners), SelectorList(s), l)
      ensures order == KeysAfter(old(order), SelectorList(s))
    {
      var selectors := if s.Many? then s.selectors else [s.selector];
      AddEach(selectors, l);
    }

    /** `context.onExit(selectorOrSelectors, listener)` */
    method OnExit(s: Selectors, l: ListenerId)
      requires Valid()
      modifies this
      ensures Valid()
      ensures listeners == AddAll(old(listeners), ExitSelectors(SelectorList(s)), l)
      ensures order == KeysAfter(old(order), ExitSelectors(SelectorList(s)))
    {
      var selectors := if s.Many? then s.selectors else [s.selector];
      AddEach(ExitSelectors(selectors), l);
    }

    /** `reportProblems(create)(context)`: the registrations `create` makes,
        then the entries of the map it returns. */
    method Build(regs: seq<Registration>, entries: seq<(string, ListenerId)>)
      requires Valid() && listeners == map[] && order == []
      modifies this
      ensures Valid()
      ensures listeners == ListenerTableOf(regs, entries)
      ensures order == KeyOrderOf(regs, entries)
    {
      for i := 0 to |regs|
        invariant Valid()
        invariant ApplyRegistrations(listeners, regs[i..]) == ApplyRegistrations(map[], regs)
        invariant KeysAfter(order, RegistrationSelectors(regs[i..])) == KeysAfter([], RegistrationSelectors(regs))
      {
        assert regs[i..][1..] == regs[i + 1..];
        assert RegistrationSelectors(regs[i..]) == ExpandedSelectors(regs[i]) + RegistrationSelectors(regs[i + 1..]);
        KeysAfterAppend(order, ExpandedSelectors(regs[i]), RegistrationSelectors(regs[i + 1..]));
        if regs[i].exit {
          OnExit(regs[i].selectors, regs[i].listener);
        } else {
          On(regs[i].selectors, regs[i].listener);
        }
      }
      assert regs[|regs|..] == [];
      for i := 0 to |entries|
        invariant Valid()
        invariant ApplyEntries(listeners, entries[i..]) == ListenerTableOf(regs, entries)
        invariant KeysAfter(order, EntrySelectors(entries[i..])) == KeyOrderOf(regs, entries)
      {
        assert entries[i..][1..] == entries[i + 1..];
        assert EntrySelectors(entries[i..]) == [entries[i].0] + EntrySelectors(entries[i + 1..]);
        KeysAfterAppend(order, [entries[i].0], EntrySelectors(entries[i + 1..]));
        AddListener(entries[i].0, entries[i].1);
      }
      assert entries[|entries|..] == [];
    }
  }

  /** What the combined listener for one selector reports: each registered
      listener's result, prepared, in table order. */
  function ReportsOf(ls: seq<ListenerId>, results: ListenerId -> ListenerResult): seq<Problem> {
    if ls == [] then [] else PrepareAll(Problems(results(ls[0]))) + ReportsOf(ls[1..], results)
  }

  lemma {:induction false} ReportsOfAppend(a: seq<ListenerId>, b: seq<ListenerId>, results: ListenerId -> ListenerResult)
    ensures ReportsOf(a + b, results) == ReportsOf(a, results) + ReportsOf(b, results)
  {
    if a == [] {
      assert a + b == b;
    } else {
      assert (a + b)[1..] == a[1..] + b;
      ReportsOfAppend(a[1..], b, results);
    }
  }

  lemma ReportsOfStep(start: seq<Problem>, mid: seq<Problem>, post: seq<Problem>,
                      ls: seq<ListenerId>, i: nat, results: ListenerId -> ListenerResult)
    requires i < |ls|
    requires mid == start + ReportsOf(ls[..i], results)
    requires post == mid + PrepareAll(Problems(results(ls[i])))
    ensures post == start + ReportsOf(ls[..i + 1], results)
  {
    var one := PrepareAll(Problems(results(ls[i])));
    assert ls[..i + 1] == ls[..i] + [ls[i]];
    ReportsOfAppend(ls[..i], [ls[i]], results);
    assert ReportsOf([ls[i]], results) == one by {
      assert [ls[i]][1..] == [];
      assert ReportsOf([ls[i]], results) == one + ReportsOf([], results);
      assert one + [] == one;
    }
  }

  /** The combined listener that `reportProblems` returns for a selector:
      calls every registered listener in order and reports each result.
      `results` gives what each listener returns for these arguments. */
  method CombinedListener(table: ListenerTable, selector: string, results: ListenerId -> ListenerResult, reporter: Reporter)
    modifies reporter
    ensures reporter.reported == old(reporter.reported) + ReportsOf(Lookup(table.listeners, selector), results)
  {
    var listenerList := Lookup(table.listeners, selector);
    ghost var start := reporter.reported;
    var i := 0;
    while i < |listenerList|
      invariant 0 <= i <= |listenerList|
      invariant reporter.reported == start + ReportsOf(listenerList[..i], results)
    {
      ghost var mid := reporter.reported;
      reporter.ReportListenerProblems(results(listenerList[i]));
      ReportsOfStep(start, mid, reporter.reported, listenerList, i, results);
      i := i + 1;
    }
    assert listenerList[..|listenerList|] == listenerList;
  }
}
