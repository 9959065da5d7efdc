/**
  The artifact-local semantic graph: nodes, populations and binding slots that
  refer to one another by local identifiers.  Literal fields that no reader
  follows are gathered in `details`.
*/
module SemanticGraph {
  import opened Wrappers

  datatype SemanticNode = SemanticNode(
    id: string, kind: string, catalogRef: Option<string>, aggregate: Option<string>, stage: Option<string>,
    operands: seq<string>, population: Option<string>, bindings: seq<string>, source: Option<string>,
    grainRefs: seq<string>, details: string)

  datatype Population = Population(
    id: string, inclusion: string, predicates: seq<string>, sources: seq<string>, policies: seq<string>)

  datatype Binding = Binding(
    slot: string, kind: string, reference: Option<string>, operator: Option<string>, stage: Option<string>, arity: Option<nat>)

  datatype Output = Output(id: string, node: string, alias: string)

  datatype TimePolicy = TimePolicy(current: Option<string>, prior: Option<string>, details: string)

  datatype Ranking = Ranking(
    partition: seq<string>, order: seq<(string, string)>, tieBreakers: seq<string>, details: string)

  datatype Outcome = Outcome(
    grain: seq<string>, population: Option<string>, order: seq<(string, string)>,
    timePolicy: Option<TimePolicy>, predicates: seq<string>, ranking: Option<Ranking>, details: string)

  datatype Join = Join(source: string, target: string, kind: string, relationship: string)

  datatype Assumption = Assumption(reference: string, kind: string, declared: string)

  datatype Catalog = Catalog(namespace: Option<string>, revision: Option<string>)

  datatype Analysis = Analysis(
    version: nat, nodes: seq<SemanticNode>, outputs: seq<Output>, populations: seq<Population>,
    catalog: Option<Catalog>, complete: bool, enrichments: seq<string>, bindings: seq<Binding>,
    outcome: Option<Outcome>, required: set<string>, joins: seq<Join>, assumptions: seq<Assumption>,
    derivations: seq<seq<string>>)
}
