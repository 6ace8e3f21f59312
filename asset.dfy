/** The script asset: a name and the serialized bytecode, never changed once built. */
module Asset {
  import opened Wrappers
  import opened Utf8Codec
  import opened Fusabi

  /** `FusabiScript`: the label (usually the file stem) and the bytecode. */
  datatype FusabiScript = FusabiScript(name: string, bytecode: Bytes)

  /** `FusabiScript::new`: stores the name and bytecode as given. */
  function New(name: string, bytecode: Bytes): (s: FusabiScript)
    ensures s.name == name && s.bytecode == bytecode
  {
    FusabiScript(name, bytecode)
  }

  /** Every script is the one `New` builds from its own fields. */
  lemma NewFromFields(s: FusabiScript)
    ensures New(s.name, s.bytecode) == s
  {
  }

  /**
   * `to_chunk`: deserializes the stored bytecode; a failure comes back as an
   * error message, not a crash. Being a function, it gives the same answer
   * however often it is called, and leaves the script as it is.
   */
  function ToChunk(fx: Capabilities, s: FusabiScript): (r: Result<Chunk, string>)
    ensures CodecRoundTrip(fx) ==> forall c :: fx.serialize(c) == Ok(s.bytecode) ==> r == Ok(c)
  {
    fx.deserialize(s.bytecode)
  }

  /** `to_chunk` reads the bytecode only: the name plays no part. */
  lemma ToChunkIgnoresName(fx: Capabilities, s: FusabiScript, t: FusabiScript)
    requires s.bytecode == t.bytecode
    ensures ToChunk(fx, s) == ToChunk(fx, t)
  {
  }

  /** Under the codec contract, a script holding serialized bytecode gives back the chunk that was serialized. */
  lemma ToChunkOfSerialized(fx: Capabilities, name: string, c: Chunk)
    requires CodecRoundTrip(fx)
    requires fx.serialize(c).Ok?
    ensures ToChunk(fx, New(name, fx.serialize(c).value)) == Ok(c)
  {
  }
}
