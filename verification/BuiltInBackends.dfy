/** The two built-in backends behind one repository: the counters' geometry carried to its summary. */
module BuiltInBackends {
  import opened Wrappers
  import opened Trees
  import opened FileMetrics
  import opened Analyzer
  import Py = PythonCounter
  import Ts = TypeScriptCounter
  import TsTheorems = TypeScriptTheorems

  /** The parsers, which may do anything: Python text may fail to parse, TypeScript text never does. */
  datatype Parsers = Parsers(python: string -> Option<Py.Node>, typeScript: string -> Ts.Node, blank: string -> bool)

  /** Each file goes to the counter of its language. */
  function Analyse(parsers: Parsers, e: Entry): Option<Metrics> {
    match e.language
    case None => None
    case Some(Python) =>
      var tree := parsers.python(e.text);
      if tree.None? then None else Some(Py.FileMetricsOf(tree.value))
    case Some(TypeScript) => Some(Ts.FileMetricsOf(parsers.blank(e.text), parsers.typeScript(e.text), e.text))
  }

  function Backend(parsers: Parsers): Analyzer.Backend {
    (e: Entry) => Analyse(parsers, e)
  }

  /** A TypeScript file, or a Python file with a function in it. */
  predicate HasFunctions(parsers: Parsers, e: Entry)
    requires Analyse(parsers, e).Some?
  {
    e.language == Some(Python) ==> Selected(parsers.python(e.text).value, 0, Py.PyWalk()) != []
  }

  /** A TypeScript file that is blank or without functions counts as one plain function, a Python file
      without functions as none; a Python file that does not parse is an error. */
  lemma WithoutFunctions(parsers: Parsers, e: Entry)
    ensures e.language == Some(TypeScript)
            && (parsers.blank(e.text) || Selected(parsers.typeScript(e.text), 0, Ts.TsWalk()) == []) ==>
              Analyse(parsers, e) == Some(Metrics(1, 0, 0, 0, 0))
    ensures e.language == Some(TypeScript) && !parsers.blank(e.text)
            && Selected(parsers.typeScript(e.text), 0, Ts.TsWalk()) != [] ==>
              Analyse(parsers, e) ==
              Some(Maxima(Ts.Measures(Selected(parsers.typeScript(e.text), 0, Ts.TsWalk()), e.text)))
    ensures e.language == Some(Python) ==> (Analyse(parsers, e).None? <==> parsers.python(e.text).None?)
    ensures e.language == Some(Python) && parsers.python(e.text).Some?
            && Selected(parsers.python(e.text).value, 0, Py.PyWalk()) == [] ==>
              Analyse(parsers, e) == Some(Metrics(0, 0, 0, 0, 0))
  {
    hide Selected, Maxima;
  }

  /** Whatever a file contains, its counter's result has the geometry, or is that of no function at all. */
  lemma CountersObey(parsers: Parsers, e: Entry)
    requires Analyse(parsers, e).Some?
    ensures BuiltIn(Analyse(parsers, e).value)
    ensures HasFunctions(parsers, e) <==> Analyse(parsers, e).value.cyclomatic >= 1
  {
    hide FileGeometry, Selected, Maxima;
    if e.language == Some(Python) {
      Py.FileObeysGeometry(parsers.python(e.text).value);
    } else {
      TsTheorems.FileObeysGeometry(parsers.blank(e.text), parsers.typeScript(e.text), e.text);
    }
  }

  /** Over any repository, d(d+1)/2 <= cognitive for the summary; and cognitive <= (cyclomatic - 1) *
      max(1, d) exactly when some file has a function or is TypeScript. */
  lemma RepositoryGeometry(parsers: Parsers, files: seq<Entry>)
    requires Analysable(files, Backend(parsers))
    ensures var m := Summary(files, Backend(parsers));
            && CostsItsNesting(m.cognitive, m.nestingDepth)
            && (FileGeometry(m) <==> exists i :: 0 <= i < |files| && HasFunctions(parsers, files[i]))
  {
    hide FileGeometry, Analyse, BuiltIn, CostsItsNesting, HasFunctions, Summary;
    forall i | 0 <= i < |files|
      ensures BuiltIn(Backend(parsers)(files[i]).value)
      ensures HasFunctions(parsers, files[i]) <==> Backend(parsers)(files[i]).value.cyclomatic >= 1
    {
      CountersObey(parsers, files[i]);
    }
    SummaryGeometry(files, Backend(parsers));
    SomeCyclomatic(files, Backend(parsers));
  }

  lemma {:induction false} SomeCyclomatic(files: seq<Entry>, backend: Analyzer.Backend)
    requires Analysable(files, backend)
    ensures Summary(files, backend).cyclomatic >= 1 <==>
            exists i :: 0 <= i < |files| && backend(files[i]).value.cyclomatic >= 1
  {
    if files != [] {
      var k := |files| - 1;
      SomeCyclomatic(files[..k], backend);
    }
  }
}
