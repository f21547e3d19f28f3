# rcgs_to_madb: the RDF-to-CSV projection, modelled in Dafny

`convert.py` loads the RCGS game-collection RDF files into one merged graph
and projects it into seven flat tables, one per entity type:

- game packages (`rcgs:Package`)
- items (`rcgs:Item`)
- persons (`foaf:Person`)
- organizations (`foaf:Organization`)
- variations (`rcgs:Variation`)
- works (`rcgs:Work`)
- related items (Items with at least one `rcgs:exemplarOf` object)

Each extractor does the same four things:

1. It selects its subjects.
2. It returns `None` when there are none.
3. It builds one row per subject, in selection order.
4. It appends each row to the table.

A row is an insertion-ordered dictionary of strings. Its first key is the
subject's IRI (`resource_uri`; `item_uri` for related items). The other
fields come in four kinds:

- **direct**: every object of one property, joined with `|`.
- **language pair**: an `if`/`elif` split of one property's literals on an
  exact language tag.
- **nested**: for every intermediate node of one property, the objects one
  or two hops further on, joined per field.
- **typed join**: the first `exemplarOf` object that is typed
  `rcgs:Package`.

The model is organised as follows:

- `graph.dfy` (`RdfGraph`): the merged graph, as an ordered sequence of
  triples with the three queries the extractors use.
- `multivalue.dfy` (`Multivalue`): the `|` join.
- `seqfacts.dfy` (`SeqFacts`): generic facts about sequences that the row
  proofs use.
- `fields.dfy` (`Fields`): the four kinds of field as columns of a layout,
  with specification functions for the row a layout yields.
- `collect.dfy` (`Collect`): the loops of the source, as methods proved
  against those functions.
- `layouts.dfy` (`Layouts`): every extractor's property table and special
  fields. Namespaces, IRIs, field names and orders are spelled as the source
  spells them. This includes the misspelled `dcndl:holdlingAgent` and both
  `rcgs:ndlBibID` (packages) and `rcgs:ndlBiBID` (related items).
- `extractors.dfy` (`Extractors`): the seven extractors.
- `rows.dfy` (`Rows`): what each table's row holds, field by field.
- `scenarios.dfy` (`Scenarios`): small stores that exhibit the documented
  behaviour.

## Model

| member | source | states |
|---|---|---|
| RdfGraph.ObjectsMembership | convert.py:191-197 | a node is among `objects(s, p)` exactly when the triple (s, p, node) is in the graph |
| RdfGraph.SubjectsOfTypeMembership | convert.py:116 | a node is among `subjects(rdf:type, t)` exactly when it is typed t |
| RdfGraph.ObjectsAppend | convert.py:191-197 | objects come in store order: in a concatenated store, the first part's objects precede the second's |
| RdfGraph.SubjectsOfTypeAppend | convert.py:116 | subjects come in store order, in the same sense |
| RdfGraph.ObjectsNoDuplicates | convert.py:191-197 | in a graph without repeated triples, `objects(s, p)` lists no node twice |
| RdfGraph.SubjectsOfTypeNoDuplicates | convert.py:116 | in a graph without repeated triples, each subject is selected once, so there is one row per subject |
| Multivalue.Join | convert.py:198 | joining no values with the separator gives "" and joining one value gives that value |
| Multivalue.JoinConcat | convert.py:198 | joining two non-empty runs puts exactly one separator between them |
| Multivalue.SplitJoin | convert.py:198 | splitting a joined cell gives the values back, provided there is at least one value and none contains the separator |
| Multivalue.JoinAmbiguousOnSeparator | convert.py:198 | for any strings a and b, the one value a, separator, b and the two values a and b give the same cell |
| Multivalue.JoinAmbiguousOnEmpty | convert.py:198 | no value and one empty value give the same cell |
| Fields.TaggedMembership | convert.py:192-194 | a node passes a language filter exactly when it is a literal tagged with exactly that tag |
| Fields.TaggedElseMembership | convert.py:206-209 | the `elif` branch keeps exactly the literals tagged tag2 and not tag1 |
| Fields.TaggedElseIsTagged | convert.py:206-209 | with two distinct tags, the `elif` list is exactly the list of tag2 literals, in order |
| Fields.LangSplitPartition | convert.py:201-211 | the split is an exact-match partition: a literal goes to the first field iff tagged tag1 and to the second iff tagged tag2, never to both; an untagged literal, an IRI or a blank node goes to neither |
| Fields.HopNodesMembership | convert.py:478-480 | a two-hop field holds exactly the nodes reachable through some intermediate node |
| Fields.NestedNodesMembership | convert.py:223-247 | a nested field holds exactly the nodes reachable along its one- or two-step path from some intermediate node |
| Fields.NestedNodesAppend | convert.py:223-247 | more intermediate nodes only add values at the end of a nested field |
| Fields.FirstOfTypeSpec | convert.py:356-366 | the for/else join finds nothing iff no candidate is typed; otherwise it finds the earliest typed candidate |
| Fields.RecordSchema | convert.py:131 | every row built from a layout has the same keys in the same order, whatever the store; the first entry is the key field holding str(subject) |
| Fields.DirectField | convert.py:189-198 | a direct field is the separator-join of str of every object in store order; it is "" when there is none; when there is at least one value and none contains the separator, it splits back into those values |
| Fields.DirectEntries | convert.py:189-198 | a property table yields one field per property, in table order, each a direct field |
| Fields.LangPairField | convert.py:201-211 | a language pair yields the ja-Hrkt / ja-Latn (or ja / en) fields, each holding the literals tagged exactly with its tag |
| Fields.LabelledEntries | convert.py:746-807 | the category columns of a work each hold the `rdfs:label` values of every node the category property leads to |
| Fields.NestedEntriesAt | convert.py:223-247 | each field of a nested block is the join of the nodes its path reaches from all the intermediate nodes, visited in store order |
| Fields.TypedJoinField | convert.py:356-366 | the join field is "" when no exemplarOf object is typed `rcgs:Package`, and otherwise str of the first one that is |
| Fields.NoObjectsEmptyEntries | convert.py:198 | a column whose property has no object on the subject gives only empty fields |
| Fields.RecordSplit | convert.py:131 | a row is its key field, then the entries of each part of the layout in turn |
| Collect.AppendStrs | convert.py:191-197 | the loop appends str of every object, in order |
| Collect.CollectDirect | convert.py:189-198 | the loop builds the filtered value list of a property; under an active filter, every value comes from an object with exactly that tag |
| Collect.CollectLangPair | convert.py:201-211 | the if/elif loop builds the two lists of the language split |
| Collect.AppendPath | convert.py:980-982 | one intermediate node adds its one-hop objects, or its two-hop objects via `rcgs:adminMetadata` |
| Collect.CollectNested | convert.py:223-247 | one pass over the intermediate nodes fills every field's list as the nested specification says |
| Collect.FindFirstOfType | convert.py:359-364 | the for/break/else search returns the first candidate typed `rcgs:Package`, or nothing exactly when none is typed |
| Collect.AppendDirect | convert.py:189-198 | appends a direct field as the layout specifies |
| Collect.AppendLangPair | convert.py:201-211 | appends the two language fields as the layout specifies |
| Collect.AppendNested | convert.py:240-247 | appends a nested block's fields, in declaration order |
| Collect.AppendTypedJoin | convert.py:355-366 | appends the exemplarOf join field, covering all three of its branches |
| Collect.AppendColumn | convert.py:131-314 | appends one column's entries |
| Collect.AppendLayout | convert.py:131-314 | appends every column's entries, in layout order |
| Collect.BuildRecord | convert.py:131-314 | builds the row of a subject: key field with str(subject), then the layout; its length is fixed by the layout |
| Extractors.ExtractTable | convert.py:116-316 | None exactly when nothing is selected; otherwise one row per subject, in selection order, each the subject's record, all with the same keys and the subject's IRI first |
| Extractors.BuildRows | convert.py:124-316 | the row loop appends one row per subject, in selection order, each the subject's record |
| Extractors.TableSchema | convert.py:131 | every row of a layout-built table has the layout's keys, in order, and starts with the subject's IRI |
| Extractors.ExtractGamePackages | convert.py:103-324 | None iff there is no `rcgs:Package`; otherwise one package-layout row per package, in store order |
| Extractors.ExtractItems | convert.py:326-395 | None iff there is no `rcgs:Item`; otherwise one item-layout row per item |
| Extractors.ExtractPersons | convert.py:397-491 | None iff there is no `foaf:Person`; otherwise one person-layout row per person |
| Extractors.ExtractOrganizations | convert.py:493-586 | None iff there is no `foaf:Organization`; otherwise one organization-layout row each |
| Extractors.ExtractVariations | convert.py:588-660 | None iff there is no `rcgs:Variation`; otherwise one variation-layout row each |
| Extractors.ExtractWorks | convert.py:662-817 | None iff there is no `rcgs:Work`; otherwise one work-layout row each |
| Extractors.WithObjectsMembership | convert.py:832-836 | the selection keeps exactly the candidates that have an object of the property |
| Extractors.WithObjectsAppend | convert.py:832-836 | the selection keeps store order: selecting from two runs is selecting from each in turn |
| Extractors.RelatedSelectionMembership | convert.py:832-836 | a node is selected as a related item iff it is typed `rcgs:Item` and has some `rcgs:exemplarOf` object |
| Extractors.SelectRelatedItems | convert.py:832-836 | the selection loop yields the related selection in store order; every selected item has an exemplarOf object |
| Extractors.BlankEntries | convert.py:1059-1074 | the fill loop sets every listed key to "", in list order |
| Extractors.BlanksKeys | convert.py:1059-1074 | the filled keys are exactly the list |
| Extractors.BuildRelatedRecord | convert.py:852-1074 | the row is `item_uri`, then the four item fields, then exemplarOf = str of the FIRST exemplarOf object and the package fields read from that node; with no exemplarOf object, "" and the blank fill |
| Extractors.ExtractRelatedItems | convert.py:819-1084 | None iff no item is selected; otherwise one row per selected item, in selection order |
| Extractors.RelatedFillUnreachable | convert.py:873-876 | for every selected item, exemplarOf is non-empty, so the row comes from the join branch and never from the fill branch (lines 1056-1074), and has the uniform key list with `item_uri` = str(item) first |
| Extractors.RelatedTableSchema | convert.py:852 | every row of a related-item table has the same keys, and its first entry is `item_uri` = str(item) |
| Rows.PackageRow | convert.py:131-314 | a package row is `resource_uri`, the 51 direct properties in table order, the two exact-tag title transcriptions, then the 8 format, 8 subunit and 6 provision-activity fields (76 entries) |
| Rows.ItemRow | convert.py:353-385 | an item row is `resource_uri`, exemplarOf (first `rcgs:Package`-typed object or ""), then the four item properties |
| Rows.PersonRow | convert.py:425-481 | a person row is `resource_uri`, prefLabel_ja / prefLabel_en (exact tags), the 22 properties, then `source` via `rcgs:adminMetadata` |
| Rows.OrganizationRow | convert.py:521-576 | an organization row is `resource_uri`, skos_prefLabel_ja / skos_prefLabel_en, the 21 properties, then `source` via `rcgs:adminMetadata` |
| Rows.VariationRow | convert.py:614-650 | a variation row is `resource_uri` and the 21 direct properties only |
| Rows.WorkRow | convert.py:689-807 | a work row is `resource_uri`, the 39 properties, then the nine categories, each holding the `rdfs:label` values of its nodes |
| Rows.RelatedPackageEntries | convert.py:879-1055 | the package part of a related row is the 54 properties, the two title transcriptions, then the 6 format, 6 subunit, 6 provision-activity fields and admin_source, all read from the package node |
| Rows.RelatedFormatSource | convert.py:969-989 | format_source is the three-hop join: x is in it iff the package has a format node whose adminMetadata node has dcterms:source x |
| Scenarios.CarrierStoreNested | convert.py:223-227 | two format nodes visited in store order contribute their carrier types in that order |
| Scenarios.FormatCarrierTypes | convert.py:223-248 | a subject with two format nodes of carrier types a and b gets `format_rcgs_carrierType` = a, the separator, then b (as in DVD and Cartridge joined) |
| Scenarios.JoinStoreQueries | convert.py:356-358 | in the join store, the item's only exemplarOf object is a node not typed `rcgs:Package` |
| Scenarios.RelatedJoinUnchecked | convert.py:356-366 | an item whose exemplarOf points at a node not typed `rcgs:Package` gets "" in the item table, yet is selected as a related item and joined to that node |
| Scenarios.SinglePackageSelected | convert.py:116 | a store with one package selects exactly that package |
| Scenarios.SinglePackageProperties | convert.py:134-198 | in the one-package store, schema_name holds the name, rdf_type holds the class IRI, and every other direct field is "" |
| Scenarios.EmptyTail | convert.py:200-314 | when none of the special properties has an object, the special fields are all "" |
| Scenarios.SinglePackageRest | convert.py:200-314 | in the one-package store, the title, format, subunit and provision fields are all "" |
| Scenarios.TitleTagMatchIsExact | convert.py:206-209 | a literal tagged "ja-hrkt" goes to neither title field: the tag match is case-sensitive |

## Left out

- Loading the files (`load_rdf_files`), both `main` functions, `save_to_csv`,
  the pandas DataFrame and every progress `print`: this is I/O and
  reporting. An extractor's table is the list of rows it would hand to
  `pd.DataFrame`.
- rdflib itself is not part of this model. Parsing, graph merging and the
  triple store are modelled as a sequence of triples in insertion order.
  Two points follow from that:
  - Store order is that order. rdflib's own iteration order is an
    implementation detail of its store.
  - Duplicate triples are allowed in the sequence. The no-duplicates
    lemmas say what holds when there are none.
- `str(node)`: modelled as the IRI text, the blank-node id or the literal's
  lexical form. Literal datatypes and rdflib's blank-node id generation are
  not modelled.
- Dictionary assignment `row[k] = v` is modelled as appending an entry.
  This matches a Python dict exactly when no key is assigned twice in a
  row, and no layout here repeats a key. Package rows have 76 keys,
  persons 26, organizations 25, variations 22, works 49 and related items
  81, all distinct. The fill branch's 75 keys are distinct too and disjoint
  from the item keys before them. The item table's three `exemplarOf`
  assignments sit in mutually exclusive branches, so the model has one
  `exemplarOf` column. Distinctness is read off the layouts, not proved by
  a lemma: it would take thousands of string disequalities.
- Extractors.RelatedRecord: the fill branch lists its 75 keys in a
  different order from the join branch's keys. The model keeps that list
  verbatim (`Layouts.RelatedFillKeys`) and proves only that the branch is
  unreachable. It does not relate the fill keys to the join keys.
- Two behaviours of the code are worth stating, because a reader of the
  extractor descriptions might expect otherwise:
  - The related-item join takes `exemplar_of[0]` without the
    `rcgs:Package` type check that the item table applies
    (`Scenarios.RelatedJoinUnchecked`).
  - In a store holding only a package and its `schema:name`, the package
    row's `rdf_type` field holds the package class IRI, because `rdf:type`
    is one of the direct properties, so it is not empty
    (`Scenarios.SinglePackageProperties`).
