/**
 * The two aggregate classifiers of the BI exporters: each upper-cases the
 * calculation and tests a fixed list of function-call prefixes in priority
 * order.
 */
module Exporters {
  import opened Text

  /** `token in calculation.upper()`. */
  predicate Has(calculation: string, token: string) {
    Contains(Upper(calculation), token)
  }

  /** No aggregate call the classifiers know of occurs. */
  predicate NoAggregate(calculation: string) {
    !Has(calculation, "SUM(") && !Has(calculation, "AVG(") && !Has(calculation, "AVERAGE(")
    && !Has(calculation, "COUNT(") && !Has(calculation, "MAX(") && !Has(calculation, "MIN(")
  }

  datatype LookerType = Sum | Average | CountDistinct | Count | Max | Min | Number

  /** The measure type as LookML spells it. */
  function LookerName(t: LookerType): string {
    match t
    case Sum => "sum"
    case Average => "average"
    case CountDistinct => "count_distinct"
    case Count => "count"
    case Max => "max"
    case Min => "min"
    case Number => "number"
  }

  /** A distinct count is a count: `COUNT(DISTINCT` contains `COUNT(`. */
  lemma DistinctCountIsACount(calculation: string)
    requires Has(calculation, "COUNT(DISTINCT")
    ensures Has(calculation, "COUNT(")
  {
    ContainsPrefix(Upper(calculation), "COUNT(DISTINCT", "COUNT(");
  }

  /**
   * `determine_looker_type`: SUM wins over everything, then AVG/AVERAGE,
   * then a distinct count before a plain count, then MAX, then MIN, and
   * "number" when no aggregate is recognised.
   */
  function DetermineLookerType(calculation: string): (r: LookerType)
    ensures Has(calculation, "SUM(") ==> r == Sum
    ensures r == Average <==> !Has(calculation, "SUM(") && (Has(calculation, "AVG(") || Has(calculation, "AVERAGE("))
    ensures r == CountDistinct <==>
      !Has(calculation, "SUM(") && !Has(calculation, "AVG(") && !Has(calculation, "AVERAGE(")
      && Has(calculation, "COUNT(DISTINCT")
    ensures r == Count ==> Has(calculation, "COUNT(") && !Has(calculation, "COUNT(DISTINCT")
    ensures r == Number <==> NoAggregate(calculation)
  {
    if Has(calculation, "SUM(") then Sum
    else if Has(calculation, "AVG(") || Has(calculation, "AVERAGE(") then Average
    else if Has(calculation, "COUNT(DISTINCT") then
      DistinctCountIsACount(calculation);
      CountDistinct
    else if Has(calculation, "COUNT(") then Count
    else if Has(calculation, "MAX(") then Max
    else if Has(calculation, "MIN(") then Min
    else Number
  }

  datatype TableauType = IntegerType | RealType | StringType

  function TableauName(t: TableauType): string {
    match t
    case IntegerType => "integer"
    case RealType => "real"
    case StringType => "string"
  }

  /**
   * `determine_tableau_datatype`: any COUNT makes an integer, otherwise any
   * other recognised aggregate makes a real, otherwise a string.
   */
  function DetermineTableauDatatype(calculation: string): (r: TableauType)
    ensures r == IntegerType <==> Has(calculation, "COUNT(")
    ensures r == StringType <==> NoAggregate(calculation)
  {
    if Has(calculation, "COUNT(") then IntegerType
    else if Has(calculation, "SUM(") || Has(calculation, "AVG(") || Has(calculation, "AVERAGE(") then RealType
    else if Has(calculation, "MAX(") || Has(calculation, "MIN(") then RealType
    else StringType
  }

  /**
   * The two exporters agree on what counts as an aggregate: Looker falls
   * back to "number" exactly when Tableau falls back to "string", a Looker
   * count of either kind is a Tableau integer, and any other Looker
   * aggregate is a Tableau number.
   */
  lemma ClassifiersAgree(calculation: string)
    ensures DetermineLookerType(calculation) == Number <==> DetermineTableauDatatype(calculation) == StringType
    ensures DetermineLookerType(calculation) in {Count, CountDistinct} ==> DetermineTableauDatatype(calculation) == IntegerType
    ensures DetermineLookerType(calculation) in {Sum, Average, Max, Min} ==> DetermineTableauDatatype(calculation) != StringType
  {
    if Has(calculation, "COUNT(DISTINCT") {
      DistinctCountIsACount(calculation);
    }
  }

  /** Both classifiers read only the upper-cased text, so letter case in the calculation never matters. */
  lemma ClassifiersIgnoreCase(calculation: string)
    ensures DetermineLookerType(Lower(calculation)) == DetermineLookerType(calculation)
    ensures DetermineTableauDatatype(Lower(calculation)) == DetermineTableauDatatype(calculation)
    ensures DetermineLookerType(Upper(calculation)) == DetermineLookerType(calculation)
    ensures DetermineTableauDatatype(Upper(calculation)) == DetermineTableauDatatype(calculation)
  {
    UpperOfLower(calculation);
    UpperOfUpper(calculation);
  }
}
