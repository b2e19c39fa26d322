# CycloneDX Rust Cargo: license resolution and XML emission, in Dafny

This project models two small parts of CycloneDX Rust Cargo, the tool that generates
CycloneDX software bills of materials for Cargo packages.

1. **The license resolver** (`try_parse_licenses`). It turns a package's optional
   license declaration into `License` records. There is one `Id` per requirement when
   the SPDX expression is fully structurable. Otherwise there is a single `Expression`
   holding the declaration verbatim. A missing declaration is the only error,
   `NoLicenseProvidedError`. The secondary entry point, `TryFrom<&cargo_metadata::Package>`,
   never parses. It always yields an `Expression` when the declaration is present, and
   `NoLicenseProvidedError` otherwise.
2. **The XML emitters** (`ToXml` for `License`, `Vec<License>`, `Tool` and `Vec<Tool>`).
   Each emitter is written call by call, as the source writes it, against a writer that
   records `Begin(name)`, `Text(s)` and `End` events. The writer accepts only a fixed
   number of further events and then fails, which models an I/O error. Each emitter is
   proved equal to writing a reference trace event by event, aborting on the first
   failure (`XmlTrace.PutAll`). That reference trace is where the tag shapes, the
   omission rules, nesting balance and the "strict prefix on failure" behaviour are
   proved.

Layout:

- `wrappers.dfy`: module `Wrappers` holds `Option` and `Result` (`Ok`/`Err`).
- `xml_trace.dfy`: module `XmlTrace` holds the event trace, the fail-after-k `Writer`, the
  `PutAll` closed form, `Depth`/`Balanced`, and `Concat` of per-item traces.
- `strings.dfy`: module `Strings` holds `Trim`. It follows Rust's `str::trim` and uses the
  Unicode `White_Space` property.
- `licenses.dfy`: module `Licenses` holds the records, the resolver, the untagged JSON value
  and the license emitters.
- `tools.dfy`: module `Tools` holds the `Tool` record, `CARGO_CYCLONEDX` and the tool emitters.

The SPDX parser is foreign code. It is a parameter `parse: string -> ParseOutcome`, where
`ParseOutcome = ParseErr | Parsed(reqs)`. Each requirement records whether it carries a
`WITH` exception and which license-list entry it names (`None` for a referencer). The
resolver calls the parser only when a declaration is present.

Two details of the resolver that the model keeps:

- The fallback `Expression` holds the declaration verbatim (src/license.rs:89). It is
  trimmed only when written as XML (src/license.rs:116). `ExceptionScenario` states both halves.
- A parse with zero requirements also falls back, because the collected list stays empty
  (src/license.rs:76).

## Model

| member | source | states |
|---|---|---|
| XmlTrace.PutAll | src/license.rs:115-117 | Writing events one by one and stopping at the first failed write either appends the whole trace, or appends exactly the events that fit and reports failure. |
| XmlTrace.PutAllAppend | src/license.rs:135-139 | Writing `a + b` is the same as writing `a` and then, only if that succeeded, writing `b`. This is how consecutive `?` calls compose. |
| XmlTrace.PutAllFresh | src/license.rs:130-143 | On a writer that fails after `k` events, a trace succeeds exactly when it fits. On failure the output is a strict prefix of the trace. |
| XmlTrace.LeafToXml | src/tool.rs:22-24 | Writing `begin_elem`, `text` and `end_elem` with `?` writes the leaf element's trace with fail-fast semantics. |
| Strings.Trim | src/license.rs:116 | The trimmed text is the slice of the input between its leading and trailing whitespace runs. It neither starts nor ends with whitespace. |
| Strings.TrimIdempotent | src/license.rs:116 | Trimming an already trimmed expression changes nothing. |
| Strings.TrimEmptyIff | src/license.rs:116 | The trimmed text is empty exactly when the declaration is all whitespace. |
| Licenses.Collect | src/license.rs:57-74 | The requirement loop returns the empty list once any requirement has an exception or is a referencer, discarding ids collected earlier. Otherwise it appends one `Id` per requirement, in order. |
| Licenses.TryParseLicenses | src/license.rs:47-90 | An absent declaration gives `NoLicenseProvidedError`. A parse error gives the verbatim declaration as one `Expression`, and so do zero requirements or any unstructurable one. Otherwise the result is exactly one `Id` per requirement in order. Every `Ok` result is non-empty and never mixes variants. |
| Licenses.StructuredIff | src/license.rs:57-78 | The result is made of ids if and only if the parse succeeded with at least one requirement and every requirement is structurable. |
| Licenses.UnsupportedDiscardsIds | src/license.rs:59-73 | One exception or referencer anywhere, after any number of good requirements, leaves only the verbatim declaration. |
| Licenses.LicenseFromMetadata | src/license.rs:101-108 | The metadata entry point fails exactly when the declaration is absent. Otherwise it returns an `Expression` of the declaration and never an `Id`. |
| Licenses.EntryPointsAgreeOnUnparsable | src/license.rs:80-108 | On absent declarations and on declarations the parser rejects, the two entry points return the same record, or the same error. |
| Licenses.JsonValue | src/license.rs:29-39 | The untagged serde value of an expression is its text, and that of an id is the id's full name. The XML form of the record carries the same text, trimmed for an expression. |
| Licenses.JsonUntagged | src/license.rs:33-39 | No variant tag is written: an expression and an id whose full name is the same text serialize identically. |
| Licenses.JsonPreservesDeclaration | src/license.rs:29-39 | In the untagged structured form, a fallback serializes to the declaration verbatim. Id records serialize to the requirements' full names, in order. |
| Licenses.LicenseToXml | src/license.rs:111-128 | Writing one record is writing its reference trace `LicenseTrace` with fail-fast semantics. `LicenseTrace` defines the exact shapes: an expression gives `[Begin("expression"), Text(trimmed text), End]`, and an id gives `[Begin("license"), Begin("id"), Text(full name), End, End]`. |
| Licenses.LicenseItemsToXml | src/license.rs:135-137 | The record loop writes the records' traces one after another and stops at the first failed write. |
| Licenses.LicensesToXml | src/license.rs:130-144 | Writing a record list is writing its reference trace with fail-fast semantics: nothing for an empty list, otherwise the records inside one `licenses` element. |
| Licenses.LicenseTraceBalanced | src/license.rs:112-127 | A record's events are balanced. |
| Licenses.LicenseListTraceBalanced | src/license.rs:130-143 | A record list's events are balanced. |
| Licenses.EmptyLicensesWriteNothing | src/license.rs:132-142 | An empty record list does not touch the writer, even a writer that would fail on its first write. |
| Licenses.LicenseListLayout | src/license.rs:133-139 | A non-empty list opens with `licenses` and ends with the `End` that closes it, because the events between them are balanced. Each record's events sit contiguously after those of the records before it. |
| Licenses.LicensesEmission | src/license.rs:130-143 | On a writer that fails after `k` events, a record list succeeds exactly when its trace fits, and then the output is that balanced trace. On failure the output is a strict prefix of it. |
| Licenses.DualLicenseScenario | src/license.rs:55-78 | `MIT OR Apache-2.0`, parsed as two plain ids, resolves to the two ids in order. It is written as two `license` elements inside `licenses`, holding the full names "MIT License" and "Apache License 2.0". |
| Licenses.ExceptionScenario | src/license.rs:59-64 | A `WITH` exception after any number of good requirements resolves to the declaration verbatim. That record is written as `licenses` wrapping one `expression` holding the trimmed declaration. |
| Licenses.ExpressionScenarioTrace | src/license.rs:114-117 | A lone expression record is written as `licenses` wrapping one `expression` that holds the trimmed declaration. |
| Tools.CargoCycloneDx | src/tool.rs:52-56 | The tool record has vendor `cyclonedx.org`, name `cyclonedx-rust-cargo`, and the build-supplied version, which may be absent. |
| Tools.ChildToXml | src/tool.rs:21-25 | One optional field is written as its reference trace `ChildTrace` with fail-fast semantics. `ChildTrace` is `[Begin(tag), Text(value), End]` when the field is present and empty when it is absent. |
| Tools.ChildrenToXml | src/tool.rs:21-35 | The three optional fields are written in the order vendor, name, version, stopping at the first failed write. |
| Tools.ToolToXml | src/tool.rs:19-37 | Writing one tool is writing its reference trace `ToolTrace` with fail-fast semantics. `ToolTrace` defines the shape: `Begin("tool")`, then the `ChildTrace` of vendor, name and version in that order, then `End`. |
| Tools.ToolItemsToXml | src/tool.rs:44-46 | The tool loop writes the tools' traces one after another and stops at the first failed write. |
| Tools.ToolsToXml | src/tool.rs:41-49 | Writing a tool list is writing its reference trace with fail-fast semantics, always inside a `tools` element. |
| Tools.ToolTraceBalanced | src/tool.rs:19-37 | A tool's events are balanced and start with `Begin("tool")`. The events between the first and the last are balanced, so the final `End` is the one that closes `tool`. |
| Tools.ChildPresence | src/tool.rs:21-35 | The vendor, name and version elements appear exactly when their fields are present. Each such element is `Begin(tag)`, then `Text` of that field's own value, then `End`. An absent field writes no element at all. |
| Tools.ChildOrder | src/tool.rs:21-35 | Present field elements appear in the order vendor, name, version. |
| Tools.EmptyToolsStillWrapped | src/tool.rs:41-49 | An empty tool list writes exactly `Begin("tools"), End`. Unlike licenses, it is not suppressed. |
| Tools.ToolListLayout | src/tool.rs:44-46 | The list opens with `tools` and ends with the `End` that closes it, because the events between them are balanced. Each tool's events sit contiguously inside that element, right after those of the tools before it. |
| Tools.ToolListTraceBalanced | src/tool.rs:41-49 | A tool list's events are balanced. |
| Tools.ToolsEmission | src/tool.rs:41-49 | On a writer that fails after `k` events, a tool list succeeds exactly when its trace fits, and then the output is that balanced trace. On failure the output is a strict prefix of it. |
| Tools.CargoCycloneDxTrace | src/tool.rs:52-56 | Without a build version, the tool writes only the vendor and name elements. A `version` element appears exactly when a version was supplied. |

## Left out

- The SPDX crate's parser (lax mode, `requirements()`, the license list and its full names) is foreign code. Its result is the `parse` parameter.
- Looking up the license field in `cargo::core::Package` or `cargo_metadata::Package` is not modelled. The field is an `Option<string>`.
- The `log::warn!` diagnostics are not modelled. They do not affect any returned value.
- `XmlWriter` escaping, byte encoding and `io::Write` are not modelled. A write is an event, and an I/O error is the fail-after-k writer.
- Balance of begin/end events on failure paths is not claimed. An early `?` return leaves elements open, and the model states only that the output is a prefix of the successful trace.
- Serde machinery beyond the untagged value of a record (`JsonValue`) is not modelled: key names, `skip_serializing_if` for tools, and the serializer itself.
- `option_env!` is evaluated at build time. The version of `CARGO_CYCLONEDX` is a parameter.
- `Balanced` counts nesting only. It does not check element names, which the writer's `end_elem` does not take either, and it does not check where text may appear.
