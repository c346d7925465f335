/** The metric vocabulary: variants, spellings, and which metrics each one is computed from. */
module Metrics {
  import opened Wrappers

  datatype Metric =
    | Cognitive | Cyclomatic | Halstead | Loc | Nom | Tokens | Nargs | Nexits | Abc | Npm | Npa | Mi | Wmc

  /** `Display`. */
  function Name(m: Metric): (s: string)
  {
    match m
    case Cognitive => "cognitive"
    case Cyclomatic => "cyclomatic"
    case Halstead => "halstead"
    case Loc => "loc"
    case Nom => "nom"
    case Tokens => "tokens"
    case Nargs => "nargs"
    case Nexits => "nexits"
    case Abc => "abc"
    case Npm => "npm"
    case Npa => "npa"
    case Mi => "mi"
    case Wmc => "wmc"
  }

  /** `FromStr`: strict lower case, one spelling each. */
  function Named(s: string): (m: Option<Metric>)
  {
    if s == "cognitive" then Some(Cognitive)
    else if s == "cyclomatic" then Some(Cyclomatic)
    else if s == "halstead" then Some(Halstead)
    else if s == "loc" then Some(Loc)
    else if s == "nom" then Some(Nom)
    else if s == "tokens" then Some(Tokens)
    else if s == "nargs" then Some(Nargs)
    else if s == "nexits" then Some(Nexits)
    else if s == "abc" then Some(Abc)
    else if s == "npm" then Some(Npm)
    else if s == "npa" then Some(Npa)
    else if s == "mi" then Some(Mi)
    else if s == "wmc" then Some(Wmc)
    else None
  }

  /** Reading a spelling back: nothing else is a name. */
  lemma NamedIff(s: string, m: Metric)
    ensures Named(s) == Some(m) <==> s == Name(m)
  {
  }

  /** The vocabulary that users write. */
  lemma Spellings()
    ensures Named("cognitive") == Some(Cognitive) && Named("cyclomatic") == Some(Cyclomatic)
    ensures Named("halstead") == Some(Halstead) && Named("loc") == Some(Loc) && Named("nom") == Some(Nom)
    ensures Named("tokens") == Some(Tokens) && Named("nargs") == Some(Nargs) && Named("nexits") == Some(Nexits)
    ensures Named("abc") == Some(Abc) && Named("npm") == Some(Npm) && Named("npa") == Some(Npa)
    ensures Named("mi") == Some(Mi) && Named("wmc") == Some(Wmc)
  {
  }

  lemma NameIsPlain(m: Metric)
    ensures Name(m) != "" && forall i | 0 <= i < |Name(m)| :: 'a' <= Name(m)[i] <= 'z'
  {
  }

  /** Every variant, in declaration order. */
  const ALL: seq<Metric> :=
    [Cognitive, Cyclomatic, Halstead, Loc, Nom, Tokens, Nargs, Nexits, Abc, Npm, Npa, Mi, Wmc]

  /** The discriminant, which is also the position in `ALL`. */
  function Index(m: Metric): (i: nat)
    ensures i < 13 && ALL[i] == m
  {
    match m
    case Cognitive => 0
    case Cyclomatic => 1
    case Halstead => 2
    case Loc => 3
    case Nom => 4
    case Tokens => 5
    case Nargs => 6
    case Nexits => 7
    case Abc => 8
    case Npm => 9
    case Npa => 10
    case Mi => 11
    case Wmc => 12
  }

  function Dependencies(m: Metric): (ds: seq<Metric>)
  {
    match m
    case Mi => [Loc, Cyclomatic, Halstead]
    case Wmc => [Cyclomatic, Nom]
    case Cognitive => [Nom]
    case Nexits => [Nom]
    case Nargs => [Nom]
    case _ => []
  }
}
