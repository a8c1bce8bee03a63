/** The calls the pipeline makes into code it does not own: the `image`
    decoder, the `quirc` QR locator, `url`, `base32` and `oath`. Each one is a
    field of `Collaborators`, an arbitrary total function, so every property
    proved below holds whatever these libraries do, with one constraint:
    `totp` returns a `Code`, a natural below 10^6. */
module Foreign {
  import opened Wrappers
  import opened Utf8

  /** What `oath::totp_raw_now` with 6 digits returns: a value below 10^6. */
  type Code = c: nat | c < 1000000

  /** A single-channel luminance plane: `width`, `height` and one intensity
      byte per pixel, as handed to `quirc::QrCoder::codes`. */
  datatype Luma = Luma(width: nat, height: nat, pixels: seq<byte>)

  datatype Collaborators = Collaborators(
    /** `image::open` followed by grayscale conversion and pixel extraction;
        the error is the `Display` text of the decoder's error. */
    openImage: string -> Result<Luma, string>,
    /** `quirc::QrCoder::new()` on the call made for the named image; the
        error is the `Debug` text of quirc's error. The constructor takes no
        input: indexing it by the file lets the calls for different files
        differ, while the calls for the same file agree. */
    createDecoder: string -> Result<(), string>,
    /** `QrCoder::codes`: the `Debug` text of a whole-image failure, or one
        result per located symbol, in the order quirc reports them. */
    locate: Luma -> Result<seq<Result<seq<byte>, string>>, string>,
    /** `url::Url::parse` followed by `query_pairs().into_owned()`: None
        when the text is not a URL, else the decoded key-value pairs in the
        order they appear. */
    parseUrl: string -> Option<seq<(string, string)>>,
    /** `base32::decode` with the RFC 4648 alphabet and no padding. */
    base32: string -> Option<seq<byte>>,
    /** `oath::totp_raw_now(secret, 6, 0, 30, SHA1)` at the moment of the
        run. */
    totp: seq<byte> -> Code
  )
}
