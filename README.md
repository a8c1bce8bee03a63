# de2fa, modelled in Dafny

de2fa reads TOTP secrets from images of QR codes, from `otpauth://` URLs or
from bare base32 secrets, and prints the current six-digit code of each
input, or an error, on a line labelled with where the input came from. This
project models its whole pipeline in `src/main.rs`:

- `text.dfy` (`Text`): decimal rendering (`{}`) and left zero-padding
  (`{:0w$}`) of naturals, with their read-back functions.
- `labels.dfy` (`Labels`): `Source`, `Output`, `Source::to_string` (the
  provenance label) and `Output::to_string` (the printed line), with a
  parser that reads a label back, proving labels unambiguous.
- `utf8.dfy` (`Utf8`): `std::str::from_utf8`, defined by the well-formed
  byte sequences of section 4 of RFC 3629, with an encoder and both round
  trips.
- `foreign.dfy` (`Foreign`): the library calls the pipeline makes (image
  decoding, the quirc QR locator, URL parsing, base32, TOTP) as the fields
  of one `Collaborators` value of arbitrary total functions; every result
  holds for all of them, with one constraint: the TOTP function returns a
  `Code`, a natural below 10^6.
- `resolve.dfy` (`Resolve`): `from_raw_payload`, `from_payload` and
  `from_secret`, the last-write-wins query lookup, and a reference
  definition of the chain (the secret bytes or the first failing stage)
  that `from_payload` and `from_raw_payload` are proved against;
  `from_secret` on its own, as secret mode calls it, is stated by
  `SecretOutcome`.
- `image.dfy` (`ImageSource`): `FromImageIterator::new` and `next` as a
  class with a position, the `filter_map`/`enumerate` labelling as a method
  with loops, and the specification of everything one image yields.
- `dispatch.dfy` (`Dispatch`): the `--from` dispatch of `main` and the
  printing loop, the order and count of outputs, and what a printed line
  gives back: a success line its six-digit code and its exact source; an
  error line is `------`, a tab, the label, `: ` and the message, and is
  recognised by its leading `-`. An error line does not determine its
  source (`Labels.ErrorLineAmbiguous`).
- `wrappers.dfy` (`Wrappers`): `Option` and `Result`.

Symbols that quirc locates but cannot decode are dropped and are not counted
in `out_of`: `count` is the number of decoded payloads (src/main.rs:162-169),
so `qr[1/2]` means the first of two decoded codes, however many symbols were
located.

## Model

| member | source | states |
|---|---|---|
| `Labels.Label` | src/main.rs:21-46 | `Source::to_string`: `image f`, `qr f` when `out_of` is 1, `qr[i/n] f` with index+1 zero-padded to the width of `out_of`, `url u`, `secret s`; no contract of its own, its inverse is `ParseLabel` (see `Labels.LabelRoundTrip`) |
| `Labels.Line` | src/main.rs:54-61 | `Output::to_string`: the code as `{:06}`, a tab and the label, or `------`, a tab, the label, `: ` and the message; no contract of its own, read back by `ParseCode` and `IsErrorLine` (see `Labels.LineFields`) |
| `Utf8.Decode` | src/main.rs:201 | `std::str::from_utf8`: decodes well-formed characters one after another and fails on the first ill-formed one; no contract of its own, its inverse is `Encode` (see `Utf8.DecodeEncode`, `Utf8.EncodeDecode`) |
| `Resolve.QueryMap` | src/main.rs:225-226 | the `HashMap` that `collect` builds, inserting the query pairs in order; no contract of its own, compared with `LastValue` in `Resolve.QueryMapLastWins` |
| `ImageSource.Survivors` | src/main.rs:162-168 | the `filter_map` that keeps the payloads of the decoded symbols; no contract of its own, characterised in `ImageSource.SurvivorsAreTheOkSymbols` |
| `ImageSource.Labelled` | src/main.rs:174-185 | the `enumerate`/`map` that pairs the i-th payload with `QrCode{filename, i, count}`; no contract of its own, computed by `ImageSource.LabelSymbols` |
| `ImageSource.ResolveAll` | src/main.rs:112-124 | what the `Ok` iterator yields: `from_raw_payload` of each stored pair in turn; no contract of its own, see `ImageSource.ResolveAllAt` |
| `ImageSource.ImageOutputs` | src/main.rs:131-190 | everything `from_image_filename` yields; no contract of its own, see `ImageSource.ImageFailureOutcome` and `ImageSource.ImageSuccessOutcome` |
| `Dispatch.EntryOutput` | src/main.rs:91-96 | url mode calls `from_payload` with `Url(arg)`, secret mode `from_secret` with `Secret(arg)`; no contract of its own, see `Dispatch.OneOutputPerArgument` |
| `Dispatch.AllImageOutputs` | src/main.rs:90 | image mode's `flat_map` of `from_image_filename` over the arguments; no contract of its own, see `Dispatch.ImageOutputsConcatenate` and `Dispatch.ImageBlock` |
| `Dispatch.Outputs` | src/main.rs:89-96 | the output stream the `--from` mode selects; no contract of its own, see `Dispatch.OutputsConcatenate` and `Dispatch.OutputsWellFormed` |
| `Text.ValueOfDec` | src/main.rs:33 | the decimal rendering of a natural reads back as that natural |
| `Text.Dec` | src/main.rs:33 | a rendering is non-empty, all digits, has no leading zero unless it is `0`, and with k its number of digits n < 10^k, and n >= 10^(k-1) when k > 1 |
| `Text.DecLengthMonotone` | src/main.rs:33-40 | a larger number never renders shorter, so `index + 1 <= out_of` fits the width of `out_of` |
| `Text.DecWidthBound` | src/main.rs:57 | for k >= 1, exactly the numbers below 10^k render in at most k digits |
| `Text.Pad0` | src/main.rs:35-39 | zero-padding yields max(len, width) characters: zeros, then the string unchanged |
| `Text.PaddedDecimal` | src/main.rs:35-39 | `{:0w$}` of n is all digits, denotes n, and is exactly w wide when n < 10^w |
| `Text.ValueIgnoresLeadingZeros` | src/main.rs:35-39 | leading zeros do not change the number a digit string denotes |
| `Text.DigitRunOf` | src/main.rs:35-37 | a digit string followed by a non-digit is exactly the digit run of the whole |
| `Labels.QrPositionField` | src/main.rs:33-38 | the position field is a non-empty digit string denoting index+1, exactly as wide as `out_of` when index < out_of |
| `Labels.QrLabelField` | src/main.rs:30-40 | a QR label with `out_of != 1` is `qr[` + index+1 zero-padded to the width of `out_of` + `/` + `out_of` + `] ` + file; the field denotes index+1 and has exactly that width when index < out_of |
| `Labels.QrLabelRoundTrip` | src/main.rs:25-42 | both QR label forms (`qr f` for a single code, `qr[i/n] f` otherwise) read back to the source |
| `Labels.LabelRoundTrip` | src/main.rs:21-46 | every label of a source whose QR index is below its count reads back to that source (`image f`, `qr ...`, `url u`, `secret s`) |
| `Labels.LabelInjective` | src/main.rs:21-46 | two such sources with the same label are equal: labels are unambiguous |
| `Labels.ErrorLineIffErr` | src/main.rs:54-61 | a printed line starts with `-` exactly when the outcome is an error |
| `Labels.LineFields` | src/main.rs:56-58 | a code below 10^6 prints as exactly six digits, a tab and the label; an error prints as `------`, a tab, the label, `: ` and the message, with no code |
| `Utf8.DecodeFirst` | src/main.rs:201 | a well-formed sequence at the head takes 1 to 4 bytes |
| `Utf8.DecodeFirstOfEncoding` | src/main.rs:201 | the head of an encoded character decodes to that character and its length, whatever follows |
| `Utf8.DecodedFirstIsEncoding` | src/main.rs:201 | the bytes of a decoded character are its shortest-form encoding |
| `Utf8.DecodeEncode` | src/main.rs:201-209 | every text decodes back from its UTF-8 encoding |
| `Utf8.EncodeDecode` | src/main.rs:201-209 | bytes accepted as UTF-8 are exactly the encoding of the text passed on |
| `Resolve.LastValue` | src/main.rs:225-229 | the reference lookup returns the value of the last pair with the key (no later pair has that key), and None only when no pair has the key |
| `Resolve.QueryMapLastWins` | src/main.rs:225-229 | the `HashMap` collected from the query pairs holds a key exactly when some pair has it, with the value of the last such pair |
| `Resolve.FromSecret` | src/main.rs:234-252 | the source is returned unchanged and a code is below 10^6 |
| `Resolve.SecretOutcome` | src/main.rs:234-252 | `from_secret` gives `Ok(totp(bytes))` when the secret decodes as base32 to bytes, and `Secret is not valid base32` otherwise; the source unchanged |
| `Resolve.FromPayload` | src/main.rs:213-232 | the source is returned unchanged and a code is below 10^6 |
| `Resolve.FromRawPayload` | src/main.rs:193-211 | the source is returned unchanged and a code is below 10^6 |
| `Resolve.StageMessageNamesStage` | src/main.rs:201-244 | the four messages (`Payload is not valid UTF-8`, `Invalid URL: p`, `URL query does not contain "secret" key: p`, `Secret is not valid base32`) name their stage whatever payload p they quote |
| `Resolve.PayloadOutcome` | src/main.rs:213-232 | `from_payload` gives `totp(bytes)` exactly when the URL parses, has a `secret` key and its last value decodes to bytes; otherwise the message of the first failing stage (`Invalid URL: p` or `URL query does not contain "secret" key: p`, quoting the payload p, or `Secret is not valid base32`, which does not quote it); the source unchanged |
| `Resolve.RawPayloadOutcome` | src/main.rs:193-211 | `from_raw_payload` gives the reference chain's code, or an error naming its first failing stage: `Payload is not valid UTF-8` for invalid bytes, else the URL or secret stage's message for the decoded text |
| `Resolve.RawPayloadRoutesText` | src/main.rs:201-210 | on valid UTF-8, `from_raw_payload` is `from_payload` on the decoded text, which encodes back to the very bytes |
| `Resolve.PayloadRoutesSecret` | src/main.rs:225-231 | a URL whose last `secret` pair has value s resolves as the bare secret s does |
| `ImageSource.SurvivorsAreTheOkSymbols` | src/main.rs:162-168 | the kept payloads are exactly the decoded symbols, each once, in discovery order |
| `ImageSource.LabelSymbols` | src/main.rs:162-185 | the stored pairs are the i-th decoded payload with `QrCode{filename, i, count}`, count the number of decoded payloads |
| `ImageSource.ResolveAllAt` | src/main.rs:117-122 | the i-th outcome is `from_raw_payload` of the i-th pair, one per pair |
| `ImageSource.ImageFailureOutcome` | src/main.rs:136-160 | a failure to open the image, create the decoder or locate codes yields exactly one output, for `Image{filename}`, `Failed to decode: `, `Failed to create QR code decoder: ` or `Failed to decode QR codes: ` followed by the library's text |
| `ImageSource.ImageSuccessOutcome` | src/main.rs:162-189 | once codes are located, the outputs are one per decoded symbol, the k-th resolving the k-th decoded payload as `QrCode{filename, k, count}`; no symbols give no outputs and no error |
| `ImageSource.ImageSourcesWellFormed` | src/main.rs:136-189 | every output of an image is for that file (its source is `Image{filename}` or a QR code of that file), every QR index is below its count, `Image` sources carry only errors, and every code is below 10^6 |
| `ImageSource.FromImageIterator.constructor` | src/main.rs:131-190 | the new iterator will yield exactly the image's outputs |
| `ImageSource.FromImageIterator.Next` | src/main.rs:112-124 | yields the next pending outcome and drops it from what remains; once nothing remains, None and no change (so the `Err` variant yields once, the `Ok` variant once per pair) |
| `ImageSource.Drain` | src/main.rs:98-100 | a consuming `for` loop over a valid iterator sees exactly what it had still to yield, in order, and leaves it with nothing pending |
| `ImageSource.DrainImage` | src/main.rs:99 | consuming one image's iterator to its end produces exactly the image's outputs, in order |
| `Dispatch.Lines` | src/main.rs:99-101 | one printed line per output, and a line starts with `-` exactly when its output is an error |
| `Dispatch.Run` | src/main.rs:89-101 | the printed lines are those of the outputs the dispatch specifies, in order |
| `Dispatch.OneOutputPerArgument` | src/main.rs:91-96 | url and secret modes give one output per argument, in argument order, with `Url(arg)` or `Secret(arg)` as its source |
| `Dispatch.ImageOutputsConcatenate` | src/main.rs:90 | image mode's `flat_map` of arguments `a + b` is that of `a` followed by that of `b` |
| `Dispatch.OutputsConcatenate` | src/main.rs:89-96 | in every mode the outputs of `a + b` are those of `a` followed by those of `b` |
| `Dispatch.ImageBlock` | src/main.rs:90 | in image mode each argument's outputs form one block between those of the arguments before and after it |
| `Dispatch.OutputsWellFormed` | src/main.rs:89-98 | every output of a run has its QR index below its count and every code below 10^6 |
| `Dispatch.LinesReadBack` | src/main.rs:54-61 | every printed line of a run starts with `-` exactly when it is an error; a success line gives back its six-digit code and its exact source; an error line is exactly `------\t<label>: <message>` and carries no code |
| `Labels.ErrorLineAmbiguous` | src/main.rs:58 | two outputs with different sources can print the same error line (`url a: b` with message `c`, and `url a` with message `b: c`), so an error line does not determine its source |

## Left out

- Command-line parsing with clap (src/main.rs:64-88): the mode and the arguments are inputs of `Dispatch.Run`; the `panic!` for an unknown mode (src/main.rs:97) cannot happen because `Mode` has only the three accepted values.
- The `--verbose` tracing (src/main.rs:133-135, 170-172, 194-200, 214-216, 235-237) and the `println!` of each line (src/main.rs:100): output only, never affecting an `Output`; `Run` returns the lines instead of printing them, and the iterator has no `verbose` field.
- Image decoding, grayscale conversion and pixel extraction (src/main.rs:144-150), the quirc decoder (src/main.rs:152-160), `url::Url::parse` with `query_pairs`, `base32::decode` and `oath::totp_raw_now`: foreign libraries, kept as the arbitrary functions of `Foreign.Collaborators`; their error texts are opaque strings.
- The clock: `totp_raw_now` reads the time on every call; the model gives the TOTP collaborator the secret only, as if the whole run happened at one instant.
- `usize` and `u64` widths: indexes, counts and codes are naturals; counts of QR symbols and six-digit codes are far from either limit.
- Laziness across images: `flat_map` starts the next image only when the previous iterator is exhausted; `Run` does the same, so the order of outputs is the same, but the model does not interleave printing with computation.
- `Resolve.FromSecret`, `Resolve.FromPayload`, `Resolve.FromRawPayload`: their own contracts only fix the source and the code range; what they compute is stated in `Resolve.SecretOutcome` and, against the reference chain, in `Resolve.PayloadOutcome` and `Resolve.RawPayloadOutcome`.
- `Dispatch.LinesReadBack`: it promises the source back only for success lines. An error line puts the message right after the label and `: `, and either of them may itself contain `: `, so the line does not determine its source; `Labels.ErrorLineAmbiguous` exhibits two such outputs.
- The six-digit range of codes: `oath::totp_raw_now` with 6 digits returns a value below 10^6 (the truncation modulo 10^digits of section 5.3 of RFC 4226), and the model does not derive this from the library. It gives the TOTP collaborator the type `Foreign.Code`, the naturals below 10^6, so every result about codes being below 10^6 or printing as six digits rests on that assumption. This covers `Resolve.FromSecret`, `Resolve.FromPayload`, `Resolve.FromRawPayload`, `ImageSource.ImageSourcesWellFormed`, `Dispatch.OutputsWellFormed` and `Dispatch.LinesReadBack`.
