/** The field layouts of the seven tables, column by column in the order the
    extractors insert the keys of a row (convert.py). Property names are kept
    exactly as the extractors spell them, including `dcndl:holdlingAgent` and
    the two spellings `rcgs:ndlBibID` (packages) and `rcgs:ndlBiBID` (related
    items). Every property table gives its language filter as None, so its columns
    are built by Directs. */
module Layouts {
  import opened RdfGraph
  import opened Fields

  const Rcgs := "https://collection.rcgs.jp/terms/"
  const Schema := "http://schema.org/"
  const Dcndl := "http://ndl.go.jp/dcndl/terms/"
  const Dcterms := "http://purl.org/dc/terms/"
  const Skos := "http://www.w3.org/2004/02/skos/core#"
  const Foaf := "http://xmlns.com/foaf/0.1/"
  const Rdfs := "http://www.w3.org/2000/01/rdf-schema#"

  const PackageClass := Iri(Rcgs + "Package")
  const ItemClass := Iri(Rcgs + "Item")
  const PersonClass := Iri(Foaf + "Person")
  const OrganizationClass := Iri(Foaf + "Organization")
  const VariationClass := Iri(Rcgs + "Variation")
  const WorkClass := Iri(Rcgs + "Work")

  const ExemplarOf := Rcgs + "exemplarOf"
  const AdminMetadata := Rcgs + "adminMetadata"
  const TitleTranscription := Dcndl + "titleTranscription"
  const PrefLabel := Skos + "prefLabel"

  // ---------------------------------------------------------------------
  // Game packages (rcgs:Package)

  const PackageProperties: seq<Property> := [
      Property("schema_name", Schema + "name"),
      Property("schema_volumeNumber", Schema + "volumeNumber"),
      Property("schema_issueNumber", Schema + "issueNumber"),
      Property("schema_copyrightYear", Schema + "copyrightYear"),
      Property("dcndl_edition", Dcndl + "edition"),
      Property("dcndl_publicationPeriodicity", Dcndl + "publicationPeriodicity"),
      Property("dcndl_volume", Dcndl + "volume"),
      Property("dcterms_accessRights", Dcterms + "accessRights"),
      Property("dcterms_description", Dcterms + "description"),
      Property("dcterms_hasPart", Dcterms + "hasPart"),
      Property("dcterms_identifier", Dcterms + "identifier"),
      Property("dcterms_isPartOf", Dcterms + "isPartOf"),
      Property("dcterms_issued", Dcterms + "issued"),
      Property("dcterms_rights", Dcterms + "rights"),
      Property("dcterms_tableOfContents", Dcterms + "tableOfContents"),
      Property("dcterms_medium", Dcterms + "medium"),
      Property("rcgs_abbreviatedTitle", Rcgs + "abbreviatedTitle"),
      Property("rcgs_digitalFileType", Rcgs + "digitalFileType"),
      Property("rcgs_distributor", Rcgs + "distributor"),
      Property("rcgs_jpNumber", Rcgs + "jpNumber"),
      Property("rcgs_manufacturer", Rcgs + "manufacturer"),
      Property("rcgs_middlewareOrGameEngine", Rcgs + "middlewareOrGameEngine"),
      Property("rcgs_modelNumber", Rcgs + "modelNumber"),
      Property("rcgs_modeOfIssuance", Rcgs + "modeOfIssuance"),
      Property("rcgs_ndlBibID", Rcgs + "ndlBibID"),
      Property("rcgs_oclcNumber", Rcgs + "oclcNumber"),
      Property("rcgs_parallelTitle", Rcgs + "parallelTitle"),
      Property("rcgs_producer", Rcgs + "producer"),
      Property("rcgs_publisher", Rcgs + "publisher"),
      Property("rcgs_ratingContentDescriptor", Rcgs + "ratingContentDescriptor"),
      Property("rcgs_representativeImage", Rcgs + "representativeImage"),
      Property("rcgs_responsibilityStatement", Rcgs + "responsibilityStatement"),
      Property("rcgs_seriesStatement", Rcgs + "seriesStatement"),
      Property("rcgs_subseriesStatement", Rcgs + "subseriesStatement"),
      Property("rcgs_variantTitle", Rcgs + "variantTitle"),
      Property("rcgs_dimension", Rcgs + "dimension"),
      Property("schema_brand", Schema + "brand"),
      Property("schema_contactPoints", Schema + "contactPoints"),
      Property("schema_contentRating", Schema + "contentRating"),
      Property("schema_gamePlatform", Schema + "gamePlatform"),
      Property("schema_gtin13", Schema + "gtin13"),
      Property("schema_isbn", Schema + "isbn"),
      Property("schema_issn", Schema + "issn"),
      Property("schema_numberOfPlayers", Schema + "numberOfPlayers"),
      Property("schema_price", Schema + "price"),
      Property("schema_requirement", Schema + "requirement"),
      Property("schema_serialNumber", Schema + "serialNumber"),
      Property("schema_thumbnailUrl", Schema + "thumbnailUrl"),
      Property("schema_url", Schema + "url"),
      Property("schema_videoFrameSize", Schema + "videoFrameSize"),
      Property("rdf_type", RdfType)
    ]

  /** dcndl:titleTranscription split by the exact tags ja-Hrkt / ja-Latn. */
  const PackageTitle: Column :=
    LangPair(TitleTranscription, "ja-Hrkt", "dcndl_titleTranscription_jaHrkt",
                                 "ja-Latn", "dcndl_titleTranscription_jaLatn")

  /** dcterms:format nodes, one field per property read from each. */
  const PackageFormat: Column :=
    Nested(Dcterms + "format", [
      Part("format_rdfs_label", Hop(Rdfs + "label")),
      Part("format_rcgs_carrierType", Hop(Rcgs + "carrierType")),
      Part("format_dcterms_extent", Hop(Dcterms + "extent")),
      Part("format_schema_encodingFormat", Hop(Schema + "encodingFormat")),
      Part("format_rcgs_dimension", Hop(Rcgs + "dimension")),
      Part("format_schema_fileSize", Hop(Schema + "fileSize")),
      Part("format_dcterms_description", Hop(Dcterms + "description")),
      Part("format_skos_note", Hop(Skos + "note"))
    ])

  /** rcgs:formatOfSubunit nodes, read like the format nodes. */
  const PackageSubunit: Column :=
    Nested(Rcgs + "formatOfSubunit", [
      Part("subunit_rdfs_label", Hop(Rdfs + "label")),
      Part("subunit_rcgs_carrierType", Hop(Rcgs + "carrierType")),
      Part("subunit_dcterms_extent", Hop(Dcterms + "extent")),
      Part("subunit_schema_encodingFormat", Hop(Schema + "encodingFormat")),
      Part("subunit_rcgs_dimension", Hop(Rcgs + "dimension")),
      Part("subunit_schema_fileSize", Hop(Schema + "fileSize")),
      Part("subunit_dcterms_description", Hop(Dcterms + "description")),
      Part("subunit_skos_note", Hop(Skos + "note"))
    ])

  /** rcgs:provisionActivity nodes. */
  const PackageProvision: Column :=
    Nested(Rcgs + "provisionActivity", [
      Part("PA_rdf_type", Hop(RdfType)),
      Part("PA_rcgs_publisherStatement", Hop(Rcgs + "publisherStatement")),
      Part("PA_dcterms_date", Hop(Dcterms + "date")),
      Part("PA_dcterms_spatial", Hop(Dcterms + "spatial")),
      Part("PA_dcterms_source", Hop(Dcterms + "source")),
      Part("PA_skos_note", Hop(Skos + "note"))
    ])

  const PackageLayout: seq<Column> :=
    Directs(PackageProperties) + [PackageTitle, PackageFormat, PackageSubunit, PackageProvision]

  // ---------------------------------------------------------------------
  // Items (rcgs:Item)

  const ItemProperties: seq<Property> := [
      Property("identifier", Dcterms + "identifier"),
      Property("spatial", Dcterms + "spatial"),
      Property("owns", Schema + "owns"),
      Property("holdingAgent", Dcndl + "holdlingAgent")
    ]

  /** The Item -> Package join: the first exemplarOf object typed rcgs:Package. */
  const ItemExemplar: Column := TypedJoin("exemplarOf", ExemplarOf, PackageClass)

  /** exemplarOf is inserted before the property table's keys. */
  const ItemLayout: seq<Column> := [ItemExemplar] + Directs(ItemProperties)

  // ---------------------------------------------------------------------
  // Persons (foaf:Person)

  const PersonProperties: seq<Property> := [
      Property("altLabel", Skos + "altLabel"),
      Property("homepage", Foaf + "homepage"),
      Property("description", Dcterms + "description"),
      Property("identifier", Dcterms + "identifier"),
      Property("ndlAuthoritiesID", Rcgs + "ndlAuthoritiesID"),
      Property("viafID", Rcgs + "viafID"),
      Property("wikidataID", Rcgs + "wikidataID"),
      Property("twitterID", Rcgs + "twitterID"),
      Property("seeAlso", Rdfs + "seeAlso"),
      Property("language", Dcterms + "language"),
      Property("disambiguatingDescription", Schema + "disambiguatingDescription"),
      Property("note", Skos + "note"),
      Property("hasOccupation", Schema + "hasOccupation"),
      Property("birthDate", Schema + "birthDate"),
      Property("deathDate", Schema + "deathDate"),
      Property("birthPlace", Schema + "birthPlace"),
      Property("deathPlace", Schema + "deathPlace"),
      Property("homeLocation", Schema + "homeLocation"),
      Property("mbox", Foaf + "mbox"),
      Property("addressCountry", Schema + "addressCountry"),
      Property("additionalName", Schema + "additionalName"),
      Property("title", Foaf + "title")
    ]

  /** skos:prefLabel split by the exact tags ja / en. */
  const PersonPrefLabel: Column := LangPair(PrefLabel, "ja", "prefLabel_ja", "en", "prefLabel_en")

  /** dcterms:source of the rcgs:adminMetadata nodes (persons and organizations). */
  const AdminSource: Column := Nested(AdminMetadata, [Part("source", Hop(Dcterms + "source"))])

  const PersonLayout: seq<Column> := [PersonPrefLabel] + Directs(PersonProperties) + [AdminSource]

  // ---------------------------------------------------------------------
  // Organizations (foaf:Organization)

  const OrganizationProperties: seq<Property> := [
      Property("altLabel", Skos + "altLabel"),
      Property("homepage", Foaf + "homepage"),
      Property("description", Dcterms + "description"),
      Property("identifier", Dcterms + "identifier"),
      Property("ndlAuthoritiesID", Rcgs + "ndlAuthoritiesID"),
      Property("viafID", Rcgs + "viafID"),
      Property("wikidataID", Rcgs + "wikidataID"),
      Property("twitterID", Rcgs + "twitterID"),
      Property("seeAlso", Rdfs + "seeAlso"),
      Property("language", Dcterms + "language"),
      Property("disambiguatingDescription", Schema + "disambiguatingDescription"),
      Property("note", Skos + "note"),
      Property("additionalType", Schema + "additionalType"),
      Property("startDate", Schema + "startDate"),
      Property("endDate", Schema + "endDate"),
      Property("address", Schema + "address"),
      Property("latitude", Schema + "latitude"),
      Property("longitude", Schema + "longitude"),
      Property("relatedOrganization", Rcgs + "relatedOrganization"),
      Property("member", Foaf + "member"),
      Property("logo", Foaf + "logo")
    ]

  const OrganizationPrefLabel: Column := LangPair(PrefLabel, "ja", "skos_prefLabel_ja", "en", "skos_prefLabel_en")

  const OrganizationLayout: seq<Column> := [OrganizationPrefLabel] + Directs(OrganizationProperties) + [AdminSource]

  // ---------------------------------------------------------------------
  // Variations (rcgs:Variation): flat properties only

  const VariationProperties: seq<Property> := [
      Property("contribution", Rcgs + "contribution"),
      Property("contentType", Rcgs + "contentType"),
      Property("variationOf", Rcgs + "variationOf"),
      Property("type", RdfType),
      Property("label", Rdfs + "label"),
      Property("color", Schema + "color"),
      Property("audio", Schema + "audio"),
      Property("language", Dcterms + "language"),
      Property("date", Dcterms + "date"),
      Property("gamePlatform", Schema + "gamePlatform"),
      Property("aspectRatio", Rcgs + "aspectRatio"),
      Property("middlewareOrGameEngine", Rcgs + "middlewareOrGameEngine"),
      Property("dimension", Rcgs + "dimension"),
      Property("pointOfView", Rcgs + "pointOfView"),
      Property("ending", Rcgs + "ending"),
      Property("multipleEnding", Rcgs + "multipleEnding"),
      Property("disambiguatingDescription", Schema + "disambiguatingDescription"),
      Property("difficultyOption", Rcgs + "difficultyOption"),
      Property("award", Schema + "award"),
      Property("abstract", Dcterms + "abstract"),
      Property("postGameContents", Rcgs + "postGameContents")
    ]

  const VariationLayout: seq<Column> := Directs(VariationProperties)

  // ---------------------------------------------------------------------
  // Works (rcgs:Work): properties, then nine label-bearing categories

  const WorkProperties: seq<Property> := [
      Property("label", Rdfs + "label"),
      Property("prefLabel", Skos + "prefLabel"),
      Property("altLabel", Skos + "altLabel"),
      Property("spatial", Dcterms + "spatial"),
      Property("date", Dcterms + "date"),
      Property("description", Dcterms + "description"),
      Property("identifier", Dcterms + "identifier"),
      Property("closeMatch", Skos + "closeMatch"),
      Property("twitch", Rcgs + "twitch"),
      Property("freebase", Rcgs + "freebase"),
      Property("mobyGames", Rcgs + "mobyGames"),
      Property("metacritic", Rcgs + "metacritic"),
      Property("seeAlso", Rdfs + "seeAlso"),
      Property("imdb", Rcgs + "imdb"),
      Property("abstract", Dcterms + "abstract"),
      Property("audience", Dcterms + "audience"),
      Property("natureOfContent", Rcgs + "natureOfContent"),
      Property("serialNumber", Schema + "serialNumber"),
      Property("disambiguatingDescription", Schema + "disambiguatingDescription"),
      Property("locationCreated", Schema + "locationCreated"),
      Property("about", Schema + "about"),
      Property("subjectOf", Schema + "subjectOf"),
      Property("gameLocation", Schema + "gameLocation"),
      Property("creator", Dcterms + "creator"),
      Property("productionCompany", Schema + "productionCompany"),
      Property("relatedAgent", Rcgs + "relatedAgent"),
      Property("logo", Schema + "logo"),
      Property("relation", Dcterms + "relation"),
      Property("isPartOf", Dcterms + "isPartOf"),
      Property("hasPart", Dcterms + "hasPart"),
      Property("precedes", Rcgs + "precedes"),
      Property("succeeds", Rcgs + "succeeds"),
      Property("sequelTo", Rcgs + "sequelTo"),
      Property("sequel", Rcgs + "sequel"),
      Property("remadeAs", Rcgs + "remadeAs"),
      Property("complements", Rcgs + "complements"),
      Property("expandedAs", Rcgs + "expandedAs"),
      Property("spinOff", Rcgs + "spinOff"),
      Property("note", Skos + "note")
    ]

  /** Nine categories whose nodes contribute their rdfs:label. */
  const WorkCategoryProperties: seq<Property> := [
      Property("genre", Schema + "genre"),
      Property("narrativeGenre", Rcgs + "narrativeGenre"),
      Property("theme", Rcgs + "theme"),
      Property("mood", Rcgs + "mood"),
      Property("setting", Rcgs + "setting"),
      Property("series", Rcgs + "series"),
      Property("franchise", Rcgs + "franchise"),
      Property("mechanic", Rcgs + "mechanic"),
      Property("protagonist", Rcgs + "protagonist")
    ]

  const WorkCategories: seq<Column> := Labelled(WorkCategoryProperties, Rdfs + "label")

  const WorkLayout: seq<Column> := Directs(WorkProperties) + WorkCategories

  // ---------------------------------------------------------------------
  // Related items: Items with an exemplarOf, joined with the package

  /** The item's own fields, read from the item. */
  const RelatedItemProperties: seq<Property> := [
      Property("item_holdingAgent", Dcndl + "holdlingAgent"),
      Property("item_identifier", Dcterms + "identifier"),
      Property("item_spatial", Dcterms + "spatial"),
      Property("item_owns", Schema + "owns")
    ]

  const RelatedItemLayout: seq<Column> := Directs(RelatedItemProperties)

  const RelatedPackageProperties: seq<Property> := [
      Property("type", RdfType),
      Property("name", Schema + "name"),
      Property("parallelTitle", Rcgs + "parallelTitle"),
      Property("alternative", Dcterms + "alternative"),
      Property("abbreviatedTitle", Rcgs + "abbreviatedTitle"),
      Property("edition", Dcndl + "edition"),
      Property("volume", Dcndl + "volume"),
      Property("responsibilityStatement", Rcgs + "responsibilityStatement"),
      Property("creator", Dcterms + "creator"),
      Property("contribution", Rcgs + "contribution"),
      Property("issued", Dcterms + "issued"),
      Property("dimension", Rcgs + "dimension"),
      Property("medium", Dcterms + "medium"),
      Property("identifier", Dcterms + "identifier"),
      Property("gtin13", Schema + "gtin13"),
      Property("isbn", Schema + "isbn"),
      Property("issn", Schema + "issn"),
      Property("modelNumber", Rcgs + "modelNumber"),
      Property("jpNumber", Rcgs + "jpNumber"),
      Property("ndlBiBID", Rcgs + "ndlBiBID"),
      Property("oclcNumber", Rcgs + "oclcNumber"),
      Property("seeAlso", Rdfs + "seeAlso"),
      Property("copyrightYear", Schema + "copyrightYear"),
      Property("accessRights", Dcterms + "accessRights"),
      Property("hasPart", Dcterms + "hasPart"),
      Property("isPartOf", Dcterms + "isPartOf"),
      Property("abstract", Dcterms + "abstract"),
      Property("description", Dcterms + "description"),
      Property("relation", Dcterms + "relation"),
      Property("references", Dcterms + "references"),
      Property("isReferencedBy", Dcterms + "isReferencedBy"),
      Property("language", Dcterms + "language"),
      Property("about", Schema + "about"),
      Property("subjectOf", Schema + "subjectOf"),
      Property("tableOfContents", Dcterms + "tableOfContents"),
      Property("brand", Schema + "brand"),
      Property("producer", Rcgs + "producer"),
      Property("publisher", Rcgs + "publisher"),
      Property("distributor", Rcgs + "distributor"),
      Property("manufacturer", Rcgs + "manufacturer"),
      Property("seriesStatement", Rcgs + "seriesStatement"),
      Property("subseriesStatement", Rcgs + "subseriesStatement"),
      Property("modeOfIssuance", Rcgs + "modeOfIssuance"),
      Property("publicationPeriodicity", Dcndl + "publicationPeriodicity"),
      Property("serialNumber", Schema + "serialNumber"),
      Property("volumeNumber", Schema + "volumeNumber"),
      Property("issueNumber", Schema + "issueNumber"),
      Property("price", Schema + "price"),
      Property("exemplar", Rcgs + "exemplar"),
      Property("downloadUrl", Schema + "downloadUrl"),
      Property("created", Dcterms + "created"),
      Property("locationCreated", Schema + "locationCreated"),
      Property("thumbnailUrl", Schema + "thumbnailUrl"),
      Property("source", Dcterms + "source")
    ]

  /** titleTranscription split by the exact tags ja-Hrkt / ja-Latn. */
  const RelatedTitle: Column :=
    LangPair(TitleTranscription, "ja-Hrkt", "titleTranscription_jaHrkt",
                                 "ja-Latn", "titleTranscription_jaLatn")

  /** format nodes; format_source goes one hop further, through adminMetadata. */
  const RelatedFormat: Column :=
    Nested(Dcterms + "format", [
      Part("format_carrierType", Hop(Rcgs + "carrierType")),
      Part("format_extent", Hop(Dcterms + "extent")),
      Part("format_dimension", Hop(Rcgs + "dimension")),
      Part("format_encodingFormat", Hop(Schema + "encodingFormat")),
      Part("format_contentSize", Hop(Schema + "contentSize")),
      Part("format_source", Hop2(AdminMetadata, Dcterms + "source"))
    ])

  /** formatOfSubunit nodes, read like the format nodes. */
  const RelatedSubunit: Column :=
    Nested(Rcgs + "formatOfSubunit", [
      Part("subunit_carrierType", Hop(Rcgs + "carrierType")),
      Part("subunit_extent", Hop(Dcterms + "extent")),
      Part("subunit_dimension", Hop(Rcgs + "dimension")),
      Part("subunit_encodingFormat", Hop(Schema + "encodingFormat")),
      Part("subunit_contentSize", Hop(Schema + "contentSize")),
      Part("subunit_source", Hop2(AdminMetadata, Dcterms + "source"))
    ])

  /** provisionActivity nodes. */
  const RelatedProvision: Column :=
    Nested(Rcgs + "provisionActivity", [
      Part("PA_type", Hop(RdfType)),
      Part("PA_publisherStatement", Hop(Rcgs + "publisherStatement")),
      Part("PA_date", Hop(Dcterms + "date")),
      Part("PA_spatial", Hop(Dcterms + "spatial")),
      Part("PA_source", Hop(Dcterms + "source")),
      Part("PA_note", Hop(Skos + "note"))
    ])

  /** dcterms:source of the package's own adminMetadata nodes. */
  const RelatedAdminSource: Column :=
    Nested(AdminMetadata, [Part("admin_source", Hop(Dcterms + "source"))])

  /** The package fields, read from the item's first exemplarOf object. */
  const RelatedPackageLayout: seq<Column> :=
    Directs(RelatedPackageProperties) + [RelatedTitle, RelatedFormat, RelatedSubunit, RelatedProvision, RelatedAdminSource]

  /** The keys the related-item extractor sets to "" when an item has no
      exemplarOf object, in that branch's order. */
  const RelatedFillKeys: seq<string> := [
      "type",
      "name",
      "titleTranscription_jaHrkt",
      "titleTranscription_jaLatn",
      "parallelTitle",
      "alternative",
      "abbreviatedTitle",
      "edition",
      "volume",
      "responsibilityStatement",
      "creator",
      "contribution",
      "issued",
      "format_carrierType",
      "format_extent",
      "format_dimension",
      "format_encodingFormat",
      "format_contentSize",
      "format_source",
      "subunit_carrierType",
      "subunit_extent",
      "subunit_dimension",
      "subunit_encodingFormat",
      "subunit_contentSize",
      "subunit_source",
      "dimension",
      "medium",
      "identifier",
      "gtin13",
      "isbn",
      "issn",
      "modelNumber",
      "jpNumber",
      "ndlBiBID",
      "oclcNumber",
      "seeAlso",
      "copyrightYear",
      "accessRights",
      "hasPart",
      "isPartOf",
      "abstract",
      "description",
      "relation",
      "references",
      "isReferencedBy",
      "language",
      "about",
      "subjectOf",
      "tableOfContents",
      "brand",
      "PA_type",
      "PA_publisherStatement",
      "PA_date",
      "PA_spatial",
      "PA_source",
      "PA_note",
      "producer",
      "publisher",
      "distributor",
      "manufacturer",
      "seriesStatement",
      "subseriesStatement",
      "modeOfIssuance",
      "publicationPeriodicity",
      "serialNumber",
      "volumeNumber",
      "issueNumber",
      "price",
      "exemplar",
      "downloadUrl",
      "created",
      "locationCreated",
      "thumbnailUrl",
      "source",
      "admin_source"
    ]
}
