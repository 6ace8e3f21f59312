/**
 * Loader and runner together: what a tracker bound to a freshly loaded
 * script does on the next tick.
 */
module Pipeline {
  import opened Wrappers
  import opened Utf8Codec
  import opened Fusabi
  import opened Asset
  import opened Loader
  import opened Runner

  /**
   * A script whose bytecode came from the source branch deserializes back to
   * the chunk the compiler produced (under the codec contract), whatever it is
   * named, so a pending tracker bound to it becomes executed on the next tick
   * exactly when that chunk runs without error.
   */
  lemma SourceScriptRuns(fx: Capabilities, ext: string, name: string, source: string, h: Handle, store: Store)
    requires CodecRoundTrip(fx)
    requires ext != "fzb"
    requires BytecodeFor(fx, ext, Encode(source)).Ok?
    ensures CompileSource(fx, source).Ok?
    ensures ToChunk(fx, New(name, BytecodeFor(fx, ext, Encode(source)).value)) == Ok(CompileSource(fx, source).value)
    ensures Step(fx, store[h := New(name, BytecodeFor(fx, ext, Encode(source)).value)], Tracker(h, false)).executed
            <==> fx.execute(CompileSource(fx, source).value).Ok?
  {
    SourcePath(fx, ext, source);
  }

  /**
   * A `.fzb` script hands its file's bytes straight to the deserializer: a
   * pending tracker bound to it becomes executed exactly when those bytes
   * deserialize and the chunk runs without error.
   */
  lemma BytecodeScriptRuns(fx: Capabilities, ext: string, name: string, bytes: Bytes, h: Handle, store: Store)
    requires ext == "fzb"
    ensures BytecodeFor(fx, ext, bytes).Ok?
    ensures ToChunk(fx, New(name, BytecodeFor(fx, ext, bytes).value)) == fx.deserialize(bytes)
    ensures Step(fx, store[h := New(name, BytecodeFor(fx, ext, bytes).value)], Tracker(h, false)).executed
            <==> fx.deserialize(bytes).Ok? && fx.execute(fx.deserialize(bytes).value).Ok?
  {
  }
}
