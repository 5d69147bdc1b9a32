/** The library's error domains and `decodingError(error0:error1:)`, which
    builds an error with code 0 in the request-builder domain whose underlying
    errors are `[error0, error1]`. */
module FoundationExtension {
  import opened Wrappers
  import opened ErrorTree

  /** `SwiftFoundationExtension.domain`. */
  const Domain: string := "studio.hcmc.foundation"

  /** `SwiftFoundationExtension.RequestBuilder.domain`: the library domain with a suffix. */
  const RequestBuilderDomain: string := Domain + ".requestBuilder"

  /** The request-builder domain spelled out; it extends the library domain. */
  lemma RequestBuilderDomainSpelledOut()
    ensures RequestBuilderDomain == "studio.hcmc.foundation.requestBuilder"
    ensures Domain < RequestBuilderDomain
  {
  }

  /** `RequestBuilder.decodingError(error0:error1:)`: code 0 in the request-builder
      domain, with both decoding errors as its underlying errors, in order. */
  function DecodingError(error0: Err, error1: Err): (r: Err)
    ensures r.domain == RequestBuilderDomain && r.code == 0
    ensures r.underlying == [error0, error1]
  {
    Err(RequestBuilderDomain, 0, [error0, error1])
  }

  /** Searching a decoding error for its own domain and code finds the error
      itself, whatever the two wrapped errors are, with the source's search and
      with the corrected one alike. */
  lemma DecodingErrorFindsItself(error0: Err, error1: Err)
    ensures FirstUnderlying(DecodingError(error0, error1), RequestBuilderDomain, 0)
         == Some(DecodingError(error0, error1))
    ensures FirstUnderlyingAsWritten(DecodingError(error0, error1), RequestBuilderDomain, 0)
         == Some(DecodingError(error0, error1))
  {
    FirstUnderlyingAsWrittenSelf(DecodingError(error0, error1), RequestBuilderDomain, 0);
  }

  /** Walking a decoding error lists it, then all of `error0`'s tree, then all
      of `error1`'s. */
  lemma DecodingErrorPreorder(error0: Err, error1: Err)
    ensures Preorder(DecodingError(error0, error1))
         == [DecodingError(error0, error1)] + Preorder(error0) + Preorder(error1)
  {
    var es := [error0, error1];
    assert es[1..] == [error1];
    assert PreorderAll([error1]) == Preorder(error1) + PreorderAll([]);
    assert PreorderAll(es) == Preorder(error0) + Preorder(error1);
  }
}
