/** The analysis-library types the core handles without looking inside:
    the compiled synonym map, the rule dialects and token streams. */
module Lucene {
  import opened Wrappers

  /** The compiled finite-state transducer of a synonym map; its contents are not modelled. */
  datatype Fst = Fst(id: nat)

  /** A compiled synonym map; an absent transducer means "no synonyms configured". */
  datatype SynonymMap = SynonymMap(fst: Option<Fst>)
  {
    predicate IsEmpty() { fst.None? }
  }

  /** The two rule grammars a map can be parsed from. */
  datatype Dialect = Solr | WordNet

  /** A token stream handed to a filter factory by the analysis chain. */
  class TokenStream {
  }
}
