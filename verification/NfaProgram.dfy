/** From a pattern tree to a program ready to be searched with. */
module NfaProgram {
  import opened Basics
  import opened RegexAst
  import opened QueryIr
  import opened NfaCode
  import opened NfaCompiler
  import opened NfaThreads
  import opened NfaWindow

  /** Compiles the tree, then tabulates closures and collects prefixes. It fails exactly
      when the program would be too large, and yields a program every search may use. */
  method BuildProgram(n: Node, groups: nat) returns (r: Result<Program>)
    ensures r.Ok? <==> Size(n) + 1 <= MAX_PROGRAM
    ensures r.Ok? ==> IsProgram(r.value, n) && r.value.groups == groups
  {
    var compiler := new Compiler();
    var start :- compiler.Compile(n);
    var offsets, pcs := BuildClosures(compiler.nfa, groups);
    return Ok(Program(compiler.nfa, start, groups, offsets, pcs, Prefixes(n)));
  }
}
