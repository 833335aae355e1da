// The `CandidateGenerator` interface: a generator answers, for a mention,
// the set of candidate entity ids. Generators are modelled as functions;
// their I/O is not part of this model.
module CandidateGeneration {
  type Generator = string -> set<string>
}
