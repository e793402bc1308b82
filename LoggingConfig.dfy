/**
 * Logger name derivation of `get_logger` in thumbnail_generator/logging_config.py.
 * Handler and formatter set-up is I/O and is not modelled.
 */
module LoggingConfig {
  import opened Wrappers
  import opened PyText

  /** Name of the package's root logger. */
  const RootLogger: string := "thumbnail_generator"

  /** The name `get_logger(module_name)` asks `logging.getLogger` for. */
  function LoggerName(moduleName: Option<string>): (name: string)
    ensures |name| >= |RootLogger| && name[..|RootLogger|] == RootLogger
    ensures moduleName.None? <==> name == RootLogger
    ensures moduleName.Some? ==> |name| > |RootLogger| && name[|RootLogger|] == '.'
    ensures moduleName.Some? ==> '.' !in name[|RootLogger| + 1..]
  {
    match moduleName
    case None => RootLogger
    case Some(m) =>
      var fields := Split(m, '.');
      if '.' in m then RootLogger + "." + fields[|fields| - 1] else RootLogger + "." + m
  }

  /** The part of a derived name after `thumbnail_generator.`. */
  function Suffix(moduleName: string): string
  {
    LoggerName(Some(moduleName))[|RootLogger| + 1..]
  }

  /** A dotted module name keeps only what follows its last dot; an undotted one is kept whole. */
  lemma SuffixIsLastSegment(moduleName: string)
    ensures '.' !in moduleName ==> Suffix(moduleName) == moduleName
    ensures '.' in moduleName ==>
      var s := Suffix(moduleName);
      |s| < |moduleName| && moduleName[|moduleName| - |s| - 1..] == "." + s
  {
    var name := LoggerName(Some(moduleName));
    assert name == RootLogger + "." + name[|RootLogger| + 1..];
    if '.' in moduleName {
      var fields := Split(moduleName, '.');
      SplitWithSep(moduleName, '.');
      SplitJoin(moduleName, '.');
      JoinLast(fields, '.');
      assert Suffix(moduleName) == fields[|fields| - 1];
    }
  }

  /** A module name ending in a dot gets an empty suffix: `thumbnail_generator.`. */
  lemma TrailingDotGivesEmptySuffix(moduleName: string)
    requires |moduleName| > 0 && moduleName[|moduleName| - 1] == '.'
    ensures LoggerName(Some(moduleName)) == RootLogger + "."
  {
    SuffixIsLastSegment(moduleName);
    var s := Suffix(moduleName);
    assert LoggerName(Some(moduleName)) == RootLogger + "." + s;
  }

  /** The script's own module, run as a program, gets `thumbnail_generator.__main__`. */
  lemma MainModuleName()
    ensures LoggerName(Some("__main__")) == "thumbnail_generator.__main__"
  {
    assert '.' !in "__main__";
  }
}
