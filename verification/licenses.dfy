/**
 The license resolver and the license XML emitters of CycloneDX Rust Cargo.

 A package's license declaration is turned into `License` records: one `Id`
 per requirement of a fully structurable SPDX expression, or otherwise a
 single `Expression` that carries the declaration verbatim. The records are
 then written into an XML writer, modelled by `XmlTrace`.

 The SPDX expression parser is foreign code; it is a parameter here, a
 function from the declaration to a `ParseOutcome`.
 */
module Licenses {
  import opened Wrappers
  import opened XmlTrace
  import Strings

  /** An entry of the SPDX license list; only its full name is emitted. */
  datatype LicenseId = LicenseId(fullName: string)

  datatype License = Expression(text: string) | Id(id: LicenseId)

  datatype LicenseError = NoLicenseProvidedError

  /** One requirement of a parsed SPDX expression: whether it carries a
      `WITH` exception, and the list entry it names (`None` for a
      referencer such as `LicenseRef-...`). */
  datatype Req = Req(hasException: bool, license: Option<LicenseId>)

  /** What the lax-mode SPDX parser makes of a declaration: an error, or the
      expression's requirements in the order they appear. */
  datatype ParseOutcome = ParseErr | Parsed(reqs: seq<Req>)

  /** A requirement the resolver can turn into an `Id` record. */
  predicate Structurable(r: Req)
  {
    !r.hasException && r.license.Some?
  }

  /** A resolved declaration: never empty, and either all `Id` records or a
      single `Expression`. */
  predicate WellResolved(ls: seq<License>)
  {
    && |ls| > 0
    && ((forall i :: 0 <= i < |ls| ==> ls[i].Id?) || (|ls| == 1 && ls[0].Expression?))
  }

  /** The records of a declaration all of whose requirements are
      structurable: one `Id` per requirement, in order. */
  predicate IdsOf(ls: seq<License>, reqs: seq<Req>)
  {
    && |ls| == |reqs|
    && forall i :: 0 <= i < |reqs| ==> reqs[i].license.Some? && ls[i] == Id(reqs[i].license.value)
  }

  // ---------------------------------------------------------------------
  // Resolution

  /** The loop over the requirements: each structurable requirement appends
      its `Id` to `acc`; the first one that carries an exception or is a
      referencer clears everything collected and stops. */
  function Collect(reqs: seq<Req>, acc: seq<License>): (r: seq<License>)
    ensures (exists i :: 0 <= i < |reqs| && !Structurable(reqs[i])) ==> r == []
    ensures (forall i :: 0 <= i < |reqs| ==> Structurable(reqs[i])) ==>
              && |r| == |acc| + |reqs|
              && r[..|acc|] == acc
              && IdsOf(r[|acc|..], reqs)
    decreases |reqs|
  {
    if |reqs| == 0 then acc
    else if reqs[0].hasException then []
    else
      match reqs[0].license
      case Some(id) =>
        var r := Collect(reqs[1..], acc + [Id(id)]);
        assert forall i :: 0 <= i < |reqs[1..]| ==> reqs[1..][i] == reqs[i + 1];
        r
      case None => []
  }

  /** `try_parse_licenses`: an absent declaration is an error; a declaration
      whose requirements are all structurable resolves to their ids;
      anything else (a parse error, no requirements, an exception or a
      referencer anywhere) resolves to the declaration itself, untrimmed. */
  function TryParseLicenses(license: Option<string>, parse: string -> ParseOutcome): (r: Result<seq<License>, LicenseError>)
    ensures license.None? <==> r.Err?
    ensures r.Err? ==> r.error == NoLicenseProvidedError
    ensures r.Ok? ==> WellResolved(r.value)
    ensures license.Some? && parse(license.value).ParseErr? ==>
              r == Ok([Expression(license.value)])
    ensures license.Some? && parse(license.value).Parsed? ==>
              var reqs := parse(license.value).reqs;
              if |reqs| > 0 && forall i :: 0 <= i < |reqs| ==> Structurable(reqs[i])
              then r.Ok? && IdsOf(r.value, reqs)
              else r == Ok([Expression(license.value)])
  {
    if license.None? then Err(NoLicenseProvidedError)
    else
      var expression := license.value;
      var fallback := [Expression(expression)];
      match parse(expression)
      case ParseErr => Ok(fallback)
      case Parsed(reqs) =>
        var licenses := Collect(reqs, []);
        assert licenses[0..] == licenses;
        if |licenses| > 0 then Ok(licenses) else Ok(fallback)
  }

  /** The result is structured exactly when the parser succeeded, found at
      least one requirement, and every requirement is structurable. */
  lemma StructuredIff(license: Option<string>, parse: string -> ParseOutcome)
    requires license.Some?
    ensures var r := TryParseLicenses(license, parse);
            var p := parse(license.value);
            r.Ok? && r.value[0].Id? <==>
              && p.Parsed?
              && |p.reqs| > 0
              && forall i :: 0 <= i < |p.reqs| ==> Structurable(p.reqs[i])
  {
  }

  /** An exception or a referencer anywhere discards every id collected
      before it: the result is the declaration alone. */
  lemma UnsupportedDiscardsIds(raw: string, parse: string -> ParseOutcome, i: nat)
    requires parse(raw).Parsed? && i < |parse(raw).reqs|
    requires !Structurable(parse(raw).reqs[i])
    ensures TryParseLicenses(Some(raw), parse) == Ok([Expression(raw)])
  {
  }

  /** `TryFrom<&cargo_metadata::Package> for License`: this metadata source
      is never parsed, so a present declaration is always an `Expression`
      of the declaration verbatim. */
  function LicenseFromMetadata(license: Option<string>): (r: Result<License, LicenseError>)
    ensures license.None? <==> r == Err(NoLicenseProvidedError)
    ensures r.Ok? ==> r.value.Expression? && r.value.text == license.value
  {
    match license
    case None => Err(NoLicenseProvidedError)
    case Some(expression) => Ok(Expression(expression))
  }

  /** The two entry points agree on every declaration the SPDX parser
      rejects, and on every absent one. */
  lemma EntryPointsAgreeOnUnparsable(license: Option<string>, parse: string -> ParseOutcome)
    requires license.Some? ==> parse(license.value).ParseErr?
    ensures TryParseLicenses(license, parse) ==
              match LicenseFromMetadata(license)
              case Ok(l) => Ok([l])
              case Err(e) => Err(e)
  {
  }

  // ---------------------------------------------------------------------
  // Structured (JSON) form

  /** The untagged serde form: an expression is its text, an id its full
      name. No variant tag is written, and the XML form carries the same
      text, trimmed for an expression. */
  function JsonValue(l: License): (r: string)
    ensures l.Expression? ==> r == l.text
    ensures l.Id? ==> r == l.id.fullName
    ensures Text(if l.Expression? then Strings.Trim(r) else r) in LicenseTrace(l)
  {
    match l
    case Expression(text) => text
    case Id(id) => id.fullName
  }

  /** The untagged form has no discriminator: an expression and an id whose
      full name is the same text serialize identically. */
  lemma JsonUntagged(s: string)
    ensures JsonValue(Expression(s)) == JsonValue(Id(LicenseId(s)))
  {
  }

  /** Nothing of a present declaration is lost in the structured form: a
      fallback serializes to the declaration verbatim, and structured
      records to the full names of the requirements, in order. */
  lemma JsonPreservesDeclaration(raw: string, parse: string -> ParseOutcome)
    ensures var r := TryParseLicenses(Some(raw), parse);
            && r.Ok?
            && (r.value[0].Expression? ==> JsonValue(r.value[0]) == raw)
            && (r.value[0].Id? ==>
                  var reqs := parse(raw).reqs;
                  && |r.value| == |reqs|
                  && forall i :: 0 <= i < |reqs| ==> JsonValue(r.value[i]) == reqs[i].license.value.fullName)
  {
    var r := TryParseLicenses(Some(raw), parse);
    if r.value[0].Id? {
      StructuredIff(Some(raw), parse);
    }
  }

  // ---------------------------------------------------------------------
  // XML emission

  /** The events one record writes: an expression's text is trimmed here,
      and only here. */
  function LicenseTrace(l: License): seq<XmlEvent>
  {
    match l
    case Expression(e) => Leaf("expression", Strings.Trim(e))
    case Id(id) => [Begin("license")] + Leaf("id", id.fullName) + [End]
  }

  function LicenseTraces(ls: seq<License>): (ts: seq<seq<XmlEvent>>)
    ensures |ts| == |ls| && forall i :: 0 <= i < |ls| ==> ts[i] == LicenseTrace(ls[i])
  {
    seq(|ls|, i requires 0 <= i < |ls| => LicenseTrace(ls[i]))
  }

  /** The events a list of records writes: nothing at all for an empty
      list, otherwise the records' events in order inside `licenses`. */
  function LicenseListTrace(ls: seq<License>): seq<XmlEvent>
  {
    if |ls| == 0 then [] else [Begin("licenses")] + Concat(LicenseTraces(ls)) + [End]
  }

  /** `ToXml for License`, call by call; each `?` aborts on a failed write. */
  function LicenseToXml(l: License, w: Writer): (r: Step)
    ensures r == PutAll(w, LicenseTrace(l))
  {
    match l
    case Expression(expr) =>
      LeafToXml("expression", Strings.Trim(expr), w)
    case Id(id) =>
      var leaf := Leaf("id", id.fullName);
      PutAllAppend(w, [Begin("license")], leaf + [End]);
      assert LicenseTrace(l) == [Begin("license")] + (leaf + [End]);
      var w1 :- Put(w, Begin("license"));
      PutAllAppend(w1, leaf, [End]);
      var w2 :- LeafToXml("id", id.fullName, w1);
      Put(w2, End)
  }

  /** The `for license in self` loop of `ToXml for Vec<License>`. */
  function LicenseItemsToXml(ls: seq<License>, w: Writer): (r: Step)
    ensures r == PutAll(w, Concat(LicenseTraces(ls)))
    decreases |ls|
  {
    if |ls| == 0 then Wrote(w)
    else
      assert LicenseTraces(ls)[1..] == LicenseTraces(ls[1..]);
      PutAllAppend(w, LicenseTrace(ls[0]), Concat(LicenseTraces(ls[1..])));
      var w1 :- LicenseToXml(ls[0], w);
      LicenseItemsToXml(ls[1..], w1)
  }

  /** `ToXml for Vec<License>`: an empty list writes nothing. */
  function LicensesToXml(ls: seq<License>, w: Writer): (r: Step)
    ensures r == PutAll(w, LicenseListTrace(ls))
  {
    if |ls| > 0 then
      var body := Concat(LicenseTraces(ls));
      PutAllAppend(w, [Begin("licenses")], body + [End]);
      assert [Begin("licenses")] + body + [End] == [Begin("licenses")] + (body + [End]);
      var w1 :- Put(w, Begin("licenses"));
      PutAllAppend(w1, body, [End]);
      var w2 :- LicenseItemsToXml(ls, w1);
      Put(w2, End)
    else
      Wrote(w)
  }

  lemma LicenseTraceBalanced(l: License)
    ensures Balanced(LicenseTrace(l))
  {
    match l
    case Expression(e) =>
      LeafBalanced("expression", Strings.Trim(e));
    case Id(id) =>
      LeafBalanced("id", id.fullName);
      BalancedWrap("license", Leaf("id", id.fullName));
  }

  lemma LicenseListTraceBalanced(ls: seq<License>)
    ensures Balanced(LicenseListTrace(ls))
  {
    if |ls| == 0 {
      assert LicenseListTrace(ls)[..0] == [];
    } else {
      forall i | 0 <= i < |ls|
        ensures Balanced(LicenseTraces(ls)[i])
      {
        LicenseTraceBalanced(ls[i]);
      }
      BalancedConcat(LicenseTraces(ls));
      BalancedWrap("licenses", Concat(LicenseTraces(ls)));
    }
  }

  /** Empty-collection suppression: an empty list touches no writer, not
      even one that would fail on its first write. */
  lemma EmptyLicensesWriteNothing(w: Writer)
    ensures LicensesToXml([], w) == Wrote(w)
  {
  }

  /** A non-empty list is wrapped in one `licenses` element, and the i-th
      record's events sit contiguously after those of the records before
      it. */
  lemma LicenseListLayout(ls: seq<License>, i: nat)
    requires i < |ls|
    ensures var t := LicenseListTrace(ls);
            var o := 1 + |Concat(LicenseTraces(ls[..i]))|;
            && t[0] == Begin("licenses") && t[|t| - 1] == End
            && Balanced(t[1..|t| - 1])
            && o + |LicenseTrace(ls[i])| < |t|
            && t[o..o + |LicenseTrace(ls[i])|] == LicenseTrace(ls[i])
  {
    var ts := LicenseTraces(ls);
    ConcatSlice(ts, i);
    assert ts[..i] == LicenseTraces(ls[..i]);
    var c := Concat(ts);
    var t := LicenseListTrace(ls);
    var p := |Concat(ts[..i])|;
    var n := |ts[i]|;
    WrappedSlice(Begin("licenses"), c, End, p, p + n);
    forall j | 0 <= j < |ts|
      ensures Balanced(ts[j])
    {
      LicenseTraceBalanced(ls[j]);
    }
    BalancedConcat(ts);
    assert t[1..|t| - 1] == c;
  }

  /** Writing a list into a writer that fails after `k` events: it succeeds
      exactly when the whole trace fits, and then writes a balanced trace;
      otherwise it writes a strict prefix of that trace and fails. */
  lemma LicensesEmission(ls: seq<License>, k: nat)
    ensures var r := LicensesToXml(ls, Writer([], k));
            var t := LicenseListTrace(ls);
            && (r.Wrote? <==> |t| <= k)
            && (r.Wrote? ==> r.writer.out == t && Balanced(r.writer.out))
            && (r.Failed? ==> |r.writer.out| < |t| && r.writer.out == t[..|r.writer.out|])
  {
    PutAllFresh(LicenseListTrace(ls), k);
    LicenseListTraceBalanced(ls);
  }

  // ---------------------------------------------------------------------
  // Concrete declarations

  /** `MIT OR Apache-2.0` resolves to two ids and writes two `license`
      elements inside `licenses`. */
  lemma DualLicenseScenario(parse: string -> ParseOutcome)
    requires parse("MIT OR Apache-2.0") ==
               Parsed([Req(false, Some(LicenseId("MIT License"))), Req(false, Some(LicenseId("Apache License 2.0")))])
    ensures TryParseLicenses(Some("MIT OR Apache-2.0"), parse) ==
              Ok([Id(LicenseId("MIT License")), Id(LicenseId("Apache License 2.0"))])
    ensures LicenseListTrace([Id(LicenseId("MIT License")), Id(LicenseId("Apache License 2.0"))]) ==
              [Begin("licenses"),
               Begin("license"), Begin("id"), Text("MIT License"), End, End,
               Begin("license"), Begin("id"), Text("Apache License 2.0"), End, End,
               End]
  {
    var ls := [Id(LicenseId("MIT License")), Id(LicenseId("Apache License 2.0"))];
    var r := TryParseLicenses(Some("MIT OR Apache-2.0"), parse);
    assert r.Ok? && |r.value| == 2 && r.value[0] == ls[0] && r.value[1] == ls[1];
    assert r.value == ls;
    assert LicenseTraces(ls)[1..][1..] == [];
  }

  /** A declaration with a `WITH` exception resolves to itself, verbatim,
      and is written as one `expression` element holding its trim. */
  lemma ExceptionScenario(raw: string, parse: string -> ParseOutcome, pre: seq<Req>, id: LicenseId)
    requires forall i :: 0 <= i < |pre| ==> Structurable(pre[i])
    requires parse(raw) == Parsed(pre + [Req(true, Some(id))])
    ensures TryParseLicenses(Some(raw), parse) == Ok([Expression(raw)])
    ensures LicenseListTrace(TryParseLicenses(Some(raw), parse).value) ==
              [Begin("licenses"), Begin("expression"), Text(Strings.Trim(raw)), End, End]
  {
    var reqs := pre + [Req(true, Some(id))];
    assert !Structurable(reqs[|pre|]);
    ExpressionScenarioTrace(raw);
  }

  /** A lone expression record is written as `licenses` wrapping one
      `expression` element that holds the trimmed text. */
  lemma ExpressionScenarioTrace(raw: string)
    ensures LicenseListTrace([Expression(raw)]) ==
              [Begin("licenses"), Begin("expression"), Text(Strings.Trim(raw)), End, End]
  {
    var ts := LicenseTraces([Expression(raw)]);
    assert ts[1..] == [];
    assert Concat(ts) == [Begin("expression"), Text(Strings.Trim(raw)), End];
  }
}
