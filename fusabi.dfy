/**
 * The Fusabi front end, bytecode codec and virtual machine, which this
 * project uses but does not define. Their types are opaque and each
 * capability is an arbitrary function value: nothing below assumes anything
 * about what they compute, only that each reports success or an error.
 * Errors arrive already rendered as text, the way the Rust code formats them
 * before wrapping them.
 */
module Fusabi {
  import opened Wrappers
  import opened Utf8Codec

  /** The lexer's token stream. */
  type Tokens

  /** The parser's syntax tree. */
  type Program

  /** An executable chunk of Fusabi bytecode. */
  type Chunk(==, !new)

  /** A value a script evaluates to. */
  type Value

  /**
   * The external capabilities: `Lexer::tokenize`, `Parser::parse_program`,
   * `Compiler::compile_program`, `serialize_chunk`, `deserialize_chunk`, and
   * `Vm::execute` on a freshly created VM. A fresh VM carries no state from
   * earlier runs, but what it computes may still depend on the host (its
   * natives, the clock, resource limits), so one record describes one moment:
   * the runner's lemmas over several ticks take a record per tick.
   */
  datatype Capabilities = Capabilities(
    tokenize: string -> Result<Tokens, string>,
    parse: Tokens -> Result<Program, string>,
    compile: Program -> Result<Chunk, string>,
    serialize: Chunk -> Result<Bytes, string>,
    deserialize: Bytes -> Result<Chunk, string>,
    execute: Chunk -> Result<Value, string>)

  /**
   * The codec contract the loader relies on but cannot check: whatever
   * `serialize_chunk` produces, `deserialize_chunk` turns back into the same
   * chunk. Used only as a hypothesis.
   */
  ghost predicate CodecRoundTrip(fx: Capabilities) {
    forall c: Chunk :: fx.serialize(c).Ok? ==> fx.deserialize(fx.serialize(c).value) == Ok(c)
  }
}
