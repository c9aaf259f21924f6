/** `internal/graph/extract.go` and `internal/domain/relationship.go`: edges read from a
    document's front matter, against an arbitrary reference resolver. */
module Extraction {
  import opened Wrappers
  import opened Text
  import opened Sorting
  import opened Identity
  import opened Taxonomy
  import opened Storage
  import opened Effects
  import Glob

  datatype Reference = Reference(repositoryId: string, docType: DocType, value: string)

  datatype Resolution = Resolved(id: string) | Unresolved | Broken

  type Resolver = Reference -> Resolution

  /** `NewRelationship` for an explicit edge of a known type. */
  function NewEdge(from: string, to: string, relType: string): (e: Option<Edge>)
    ensures e.Some? ==> e.value.from == TrimSpace(from) && e.value.to == TrimSpace(to) && e.value.relType == relType
    ensures e.Some? ==> e.value.source == "explicit" && e.value.from != e.value.to && e.value.id == EdgeID(e.value.from, e.value.to, relType)
  {
    var f, t := TrimSpace(from), TrimSpace(to);
    if f == "" || t == "" || f == t then None else Some(Edge(EdgeID(f, t, relType), f, t, relType, "explicit"))
  }

  predicate LooksLikePath(v: string) {
    v != "" && !Contains(v, "://") && ('/' in v || Glob.HasSuffix(ToLower(v), ".md"))
  }

  predicate Excluded(field: string) {
    field == "superseded_by" || field == "resulting_adr"
  }

  /** The relationship type a front-matter field declares, if it declares one. */
  function Declares(field: string, value: string): Option<string> {
    if TrimSpace(value) == "" then None
    else if field == "supersedes" then Some("supersedes")
    else if Excluded(field) || !LooksLikePath(value) then None
    else Some("references")
  }

  /** Which fields link: `supersedes` with any value, and every other field that holds a path, but
      for the two that speak for the other document. */
  lemma DeclaresMeaning(field: string, value: string)
    ensures Declares("supersedes", value) == if Blank(value) then None else Some("supersedes")
    ensures field == "superseded_by" || field == "resulting_adr" ==> Declares(field, value).None?
    ensures field !in {"supersedes", "superseded_by", "resulting_adr"} ==>
              (Declares(field, value) == Some("references") <==>
               !Blank(value) && !Contains(value, "://") && ('/' in value || Glob.HasSuffix(ToLower(value), ".md")))
  {
    BlankTrims(value);
  }

  function Resolve(doc: Document, value: string, resolve: Resolver): Resolution {
    resolve(Reference(doc.repositoryId, doc.docType, TrimSpace(value)))
  }

  /** The edge one field gives: none when it does not resolve or resolves to the document itself. */
  function FieldEdge(doc: Document, value: string, relType: string, resolve: Resolver): Option<Edge> {
    var r := Resolve(doc, value, resolve);
    if r.Resolved? && r.id != doc.id then NewEdge(doc.id, r.id, relType) else None
  }

  ghost predicate Contributes(doc: Document, resolve: Resolver, field: string, e: Edge) {
    && field in doc.metadata
    && Declares(field, doc.metadata[field]).Some?
    && FieldEdge(doc, doc.metadata[field], Declares(field, doc.metadata[field]).value, resolve) == Some(e)
  }

  ghost predicate DistinctEdges(edges: seq<Edge>) {
    forall i, j :: 0 <= i < j < |edges| ==> edges[i].id != edges[j].id
  }

  ghost predicate ProperEdge(documentId: string, e: Edge) {
    && e.from == TrimSpace(documentId) && e.to != e.from && e.id == EdgeID(e.from, e.to, e.relType)
    && (e.relType == "supersedes" || e.relType == "references") && e.source == "explicit"
  }

  /** Edges from the document, never to itself, with identifiers of their own. */
  ghost predicate ProperEdges(documentId: string, edges: seq<Edge>) {
    DistinctEdges(edges) && forall e :: e in edges ==> ProperEdge(documentId, e)
  }

  /** Within one document's edges the identifier determines the edge. */
  lemma SameIdSameEdge(documentId: string, a: Edge, b: Edge)
    requires ProperEdge(documentId, a) && ProperEdge(documentId, b) && a.id == b.id
    ensures a == b
  {
    SameHeadInjective(a.from, a.to, a.relType, b.to, b.relType);
  }

  ghost predicate SeenOf(seen: set<string>, out: seq<Edge>) {
    forall id :: id in seen <==> exists i :: 0 <= i < |out| && out[i].id == id
  }

  /** The `add` closure: `seen` holds the identifiers already taken. */
  method Add(doc: Document, value: string, relType: string, resolve: Resolver, seen: set<string>, out: seq<Edge>)
    returns (ok: bool, seen': set<string>, out': seq<Edge>)
    requires relType == "supersedes" || relType == "references"
    requires ProperEdges(doc.id, out) && SeenOf(seen, out)
    ensures ok ==> ProperEdges(doc.id, out') && SeenOf(seen', out')
    ensures ok ==>
              forall e :: e in out' <==> e in out || (TrimSpace(value) != "" && FieldEdge(doc, value, relType, resolve) == Some(e))
    ensures ok <==> !Fails(doc, value, relType, resolve)
  {
    ok, seen', out' := true, seen, out;
    if TrimSpace(value) == "" {
      return;
    }
    var r := Resolve(doc, value, resolve);
    if r.Broken? {
      return false, seen, out;
    }
    if r.Unresolved? || r.id == doc.id {
      return;
    }
    var e := NewEdge(doc.id, r.id, relType);
    if e.None? {
      return false, seen, out;
    }
    assert ProperEdge(doc.id, e.value);
    if e.value.id in seen {
      var i :| 0 <= i < |out| && out[i].id == e.value.id;
      assert out[i] in out;
      SameIdSameEdge(doc.id, out[i], e.value);
      return;
    }
    seen', out' := seen + {e.value.id}, out + [e.value];
    AppendProper(doc.id, seen, out, e.value);
  }

  lemma AppendProper(documentId: string, seen: set<string>, out: seq<Edge>, e: Edge)
    requires ProperEdges(documentId, out) && SeenOf(seen, out) && ProperEdge(documentId, e) && e.id !in seen
    ensures ProperEdges(documentId, out + [e]) && SeenOf(seen + {e.id}, out + [e])
  {
    var more := out + [e];
    assert forall i :: 0 <= i < |out| ==> more[i] == out[i];
    forall id | id in seen + {e.id} ensures exists i :: 0 <= i < |more| && more[i].id == id {
      if id in seen {
        var i :| 0 <= i < |out| && out[i].id == id;
        assert more[i].id == id;
      } else {
        assert more[|out|].id == id;
      }
    }
  }

  /** The resolver fails, or names a target no relationship can be made of. */
  ghost predicate Fails(doc: Document, value: string, relType: string, resolve: Resolver) {
    var r := Resolve(doc, value, resolve);
    TrimSpace(value) != "" && (r.Broken? || (r.Resolved? && r.id != doc.id && NewEdge(doc.id, r.id, relType).None?))
  }

  method SortedFields(metadata: map<string, string>) returns (keys: seq<string>)
    ensures forall k :: k in keys <==> k in metadata
    ensures StrictlySorted(StrLess, keys)
  {
    var found := Keys(metadata);
    StrLessIsTotalOrder();
    keys := SortSlice(found, StrLess);
    PermutationMembers(keys, found);
    DistinctPermutation(found, keys);
    SortedDistinctIsStrict(StrLess, keys);
  }

  /** The edges of the fields seen so far. */
  ghost predicate FromFields(doc: Document, resolve: Resolver, fields: set<string>, out: seq<Edge>) {
    forall e :: e in out <==> exists k :: k in fields && Contributes(doc, resolve, k, e)
  }

  /** One turn of the loop over the sorted fields. */
  method AddField(doc: Document, resolve: Resolver, k: string, seen: set<string>, out: seq<Edge>, ghost done: set<string>)
    returns (ok: bool, seen': set<string>, out': seq<Edge>)
    requires ProperEdges(doc.id, out) && SeenOf(seen, out) && FromFields(doc, resolve, done, out)
    requires k in doc.metadata && (k == "supersedes" ==> k in done)
    ensures ok ==> ProperEdges(doc.id, out') && SeenOf(seen', out') && FromFields(doc, resolve, done + {k}, out')
    ensures k != "supersedes" ==> (ok <==> !FieldFails(doc, resolve, k))
    ensures k == "supersedes" ==> ok
  {
    if k == "supersedes" || Excluded(k) || !LooksLikePath(doc.metadata[k]) {
      NoEdge(doc, resolve, done, out, k);
      return true, seen, out;
    }
    ok, seen', out' := Add(doc, doc.metadata[k], "references", resolve, seen, out);
    if ok {
      OneMoreField(doc, resolve, done, out, k, out');
    }
  }

  /** The first call of `add`, for the one field with a type of its own. */
  method AddSupersedes(doc: Document, resolve: Resolver) returns (ok: bool, seen: set<string>, out: seq<Edge>, ghost done: set<string>)
    ensures ok ==> ProperEdges(doc.id, out) && SeenOf(seen, out) && FromFields(doc, resolve, done, out)
    ensures ok ==> forall k :: k in done <==> k in doc.metadata && k == "supersedes"
    ensures ok <==> !FieldFails(doc, resolve, "supersedes")
  {
    ok, seen, out, done := true, {}, [], {};
    if "supersedes" in doc.metadata {
      ok, seen, out := Add(doc, doc.metadata["supersedes"], "supersedes", resolve, seen, out);
      if ok {
        OneMoreField(doc, resolve, {}, [], "supersedes", out);
        done := {} + {"supersedes"};
      }
    }
  }

  ghost predicate FieldFails(doc: Document, resolve: Resolver, k: string) {
    && k in doc.metadata && Declares(k, doc.metadata[k]).Some?
    && Fails(doc, doc.metadata[k], Declares(k, doc.metadata[k]).value, resolve)
  }

  /** `Extract`: exactly the edges the front matter's references resolve to, or an error exactly
      when one of them cannot be resolved. */
  method Extract(doc: Document, resolve: Resolver) returns (r: Option<seq<Edge>>)
    ensures r.Some? ==> ProperEdges(doc.id, r.value) && FromFields(doc, resolve, doc.metadata.Keys, r.value)
    ensures r.None? <==> exists k :: FieldFails(doc, resolve, k)
  {
    ghost var done: set<string>;
    var ok, seen, out;
    ok, seen, out, done := AddSupersedes(doc, resolve);
    if !ok {
      return None;
    }
    var keys := SortedFields(doc.metadata);
    for i := 0 to |keys|
      invariant ProperEdges(doc.id, out) && SeenOf(seen, out)
      invariant FromFields(doc, resolve, done, out) && Visited(doc, resolve, keys[..i], done)
    {
      assert keys[i] in keys;
      VisitedNext(doc, resolve, keys, i, done);
      ok, seen, out := AddField(doc, resolve, keys[i], seen, out, done);
      if !ok {
        return None;
      }
      done := done + {keys[i]};
    }
    assert keys[..|keys|] == keys;
    assert done == doc.metadata.Keys;
    return Some(out);
  }

  /** The fields done: `supersedes` and those visited, none of which failed. */
  ghost predicate Visited(doc: Document, resolve: Resolver, visited: seq<string>, done: set<string>) {
    && (forall k :: k in done <==> k in doc.metadata && (k == "supersedes" || k in visited))
    && (forall k :: k in done ==> !FieldFails(doc, resolve, k))
  }

  lemma VisitedNext(doc: Document, resolve: Resolver, keys: seq<string>, i: nat, done: set<string>)
    requires i < |keys| && keys[i] in doc.metadata && Visited(doc, resolve, keys[..i], done)
    ensures !FieldFails(doc, resolve, keys[i]) ==> Visited(doc, resolve, keys[..i + 1], done + {keys[i]})
    ensures keys[i] == "supersedes" ==> keys[i] in done
  {
    assert keys[..i + 1] == keys[..i] + [keys[i]];
  }

  lemma NoEdge(doc: Document, resolve: Resolver, done: set<string>, out: seq<Edge>, k: string)
    requires FromFields(doc, resolve, done, out) && k in doc.metadata
    requires k in done || Declares(k, doc.metadata[k]).None?
    ensures FromFields(doc, resolve, done + {k}, out)
  {
  }

  lemma OneMoreField(doc: Document, resolve: Resolver, done: set<string>, out: seq<Edge>, k: string, more: seq<Edge>)
    requires FromFields(doc, resolve, done, out)
    requires forall e :: e in more <==> e in out || Contributes(doc, resolve, k, e)
    ensures FromFields(doc, resolve, done + {k}, more)
  {
    forall e ensures e in more <==> exists f :: f in done + {k} && Contributes(doc, resolve, f, e) {
      if Contributes(doc, resolve, k, e) {
        assert k in done + {k};
      }
      if e in out {
        var f :| f in done && Contributes(doc, resolve, f, e);
        assert f in done + {k};
      }
    }
  }

  // ----- writing the edges

  /** Every stored edge carries the identifier of its ends and type. */
  ghost predicate EdgesCanonical(t: Tables) {
    forall id :: id in t.edges ==>
      var e := t.edges[id]; e.id == id && id == EdgeID(e.from, e.to, e.relType) && '|' !in e.from
  }

  /** Replacing a document's edges by extracted ones breaks no primary key. */
  lemma ExtractedEdgesFit(t: Tables, documentId: string, edges: seq<Edge>)
    requires EdgesCanonical(t) && ProperEdges(documentId, edges)
    requires TrimSpace(documentId) == documentId && '|' !in documentId
    ensures EdgeIdsFree(EdgesNotFrom(t, documentId), edges)
  {
    forall i | 0 <= i < |edges| ensures edges[i].id !in EdgesNotFrom(t, documentId) {
      var e := edges[i];
      assert e in edges;
      if e.id in t.edges {
        var o := t.edges[e.id];
        TripleHead(e.from, e.to, e.relType, o.from, o.to, o.relType);
      }
    }
  }
}
