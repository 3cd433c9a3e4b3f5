/** The parts of a proxy config that the writers and the aggregator look at. */
module Configs {
  import opened Options

  /** A Python string may hold lone surrogates: a list of code points. */
  type Text = seq<nat>

  /**
   The key `deduplicate` goes by: `dedup_key`, or the fallback built when that raises. hashed is what the
   hash of the credential is taken of, or the fallback text; the hash is injective.
   */
  datatype DedupKey = DedupKey(protocol: Text, address: Text, port: int, hashed: Text)

  /** latency is None when it is missing, NaN, or not a number at all. */
  datatype Config = Config(
    dedupKey: DedupKey, address: string, port: string, rawLink: string, remark: string,
    country: Option<string>, latency: Option<real>, quality: real, isAlive: Option<bool>)
  {
    predicate Dead() {
      isAlive == Some(false)
    }
  }
}
