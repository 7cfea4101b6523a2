# urlmatic `trim` and error rendering, in Dafny

urlmatic is a command-line URL toolkit written in Rust. Apart from argument
parsing (clap) and URL handling (the url crate), the logic the repository
implements itself is the `trim` subcommand and its error type. This project
models both and proves what they promise.

- `Wrappers` (wrappers.dfy): `Option`, `Result` and `Outcome` (`Result<(), E>`).
- `Errors` (errors.dfy): the `Error` enum, the two `From` conversions used by
  `?`, and `Display` as the function `Message`. `Message` is one exhaustive
  `match`, so every variant renders. The foreign errors `num::ParseIntError`
  and `url::ParseError` are carried as their own rendered text, which the model
  leaves uninterpreted. `Classify` reads a rendered message back into an
  error. It recognises the three prefixes of the tool's own messages and is the
  partner of `Message`.
- `TrimCommand` (trim.dfy): a parsed `url::Url` as a class whose fields
  `trim` updates in place. Its path is either hierarchical, in which case
  `path_segments()` yields segments, or cannot-be-a-base, in which case it
  yields nothing. The method `Trim` follows the source step by step. It
  propagates a parse error. It fails with `InvalidArgument("URL has no path:
  " + url)` when there are no segments. It drains the segment iterator into a
  sequence, pops up to `count` segments with an early `break`, and calls
  `set_path` with the rest joined by `/`. Its contract ties the new path to
  the closed-form specification `Trimmed` and says that scheme, authority,
  query and fragment do not change.

`count` is clap's `i32` (src/main.rs:36), modelled as the newtype `Int32`. A
zero or negative count makes the range `0..count` empty, so nothing is popped.
A URL without path segments fails with `InvalidArgument` (src/main.rs:77).

The outcome of `url::Url::parse(&cmd.url)` is an input of `Trim`. So is the
effect of the url crate's `set_path`, given as the function `normalise`.
`TrimmedPathSegments` states the consequence in the case where `set_path`
simply splits its argument at `/`. It does not do so for an argument that
starts with an empty segment, among others (see "## Left out").

## Model

| member | source | states |
|---|---|---|
| `Errors.FromIntError` | src/error.rs:15-19 | wraps the `ParseIntError` unchanged in the `ParseIntError` variant, whose message is the inner error's own text |
| `Errors.FromUrlError` | src/error.rs:21-25 | wraps the `url::ParseError` unchanged in the `ParseUrlError` variant, whose message is the inner error's own text |
| `Errors.MessagePrefixes` | src/error.rs:30-32 | `NoSuchCommand`, `InvalidArgument` and `MissingArgument` render as "No such command: ", "Invalid argument: " and "Missing argument: " followed by the payload |
| `Errors.WrappedMessagesUnchanged` | src/error.rs:33-34 | the wrapped parse errors render as exactly the inner error's message, with no prefix added |
| `Errors.Message` | src/error.rs:27-37 | every variant renders; a string-carrying variant renders as its payload preceded by exactly 17 ("No such command: ") or 18 characters |
| `Errors.PrefixesDistinct` | src/error.rs:30-32 | no message of one string-carrying variant starts with the prefix of another |
| `Errors.Classify` | src/error.rs:27-37 | whatever the decoder recognises is a string-carrying error that renders back to the same text |
| `Errors.ClassifyMessage` | src/error.rs:29-35 | round trip: the message of a string-carrying error decodes to exactly that error |
| `Errors.MessageInjective` | src/error.rs:29-35 | two string-carrying errors with the same message are the same variant with the same payload |
| `TrimCommand.Path.Segments` | src/main.rs:77 | `path_segments()` yields segments exactly when the path is hierarchical |
| `TrimCommand.Url.constructor` | src/main.rs:76 | a parsed URL holds the scheme, authority, path, query and fragment it was given |
| `TrimCommand.Url.SetPath` | src/main.rs:95 | `set_path` replaces the path by the crate's normalisation of its argument and changes nothing else |
| `TrimCommand.Trimmed` | src/main.rs:88-93 | the kept segments are a prefix of the original, with min(count, length) removed for a positive count and none otherwise |
| `TrimCommand.Trim` | src/main.rs:75-99 | a parse failure is returned wrapped in `ParseUrlError`; a URL without path segments fails with `InvalidArgument("URL has no path: " + url)` and is left unchanged; otherwise the path becomes the normalisation of the kept segments joined with "/", and scheme, authority, query and fragment are unchanged |
| `TrimCommand.NoPathMessage` | src/main.rs:77 | the no-path failure renders as "Invalid argument: URL has no path: " + url and decodes back to that error |
| `TrimCommand.TrimmedNonPositive` | src/main.rs:88 | a zero or negative count keeps every segment |
| `TrimCommand.TrimmedBeyondLength` | src/main.rs:88-93 | a count at least the number of segments keeps none, without error, and a count one larger gives the same result |
| `TrimCommand.TrimmedRemovesFromEnd` | src/main.rs:88-93 | for a count below the length, the kept segments followed by the last `count` segments are the original list |
| `TrimCommand.Join` | src/main.rs:95 | the joined path starts with the first kept segment and has one `/` between each two segments, so its length is their total length plus one less than their number |
| `TrimCommand.Split` | src/main.rs:77 | `path_segments`' split at `/` gives one more piece than there are separators, and no piece holds a separator |
| `TrimCommand.SplitJoin` | src/main.rs:95 | splitting at "/" undoes joining with "/" for a non-empty list of segments without "/" |
| `TrimCommand.TrimmedPathSegments` | src/main.rs:95 | if `set_path` splits its argument at "/", the path afterwards has exactly the kept segments, or the single empty segment of the root path when none are kept |

## Left out

- Command-line definition and parsing with clap (src/main.rs:9-38, src/main.rs:51): library glue.
- `main`'s `*** ` output and exit status, and the final `println!` of `trim` (src/main.rs:40-48, src/main.rs:96): I/O.
- `resolve` (src/main.rs:58-73): it reads stdin and delegates to `url::Url::parse` and `Url::join`, whose resolution algorithm lives in the url crate, which is not part of this model.
- `url::Url::parse`, the splitting done by `path_segments` and the normalisation done by `set_path` (leading `/`, percent-encoding, dot segments, the empty path of non-special URLs): these belong to the url crate. They are inputs of the model (`parsed`, `normalise`).
- `TrimmedPathSegments` assumes `set_path` merely splits its argument at `/`. The url crate does more: it resolves dot segments, percent-encodes, and absorbs a leading empty segment (after `https://h//x/y` trimmed by 1, the argument `/x` gives the segments `["x"]`, not `["", "x"]`). `Trim` itself does not rely on the assumption, since it leaves the effect of `set_path` to `normalise`.
- The `Display` text of `num::ParseIntError` and `url::ParseError`: kept as uninterpreted text.
- The iterator returned by `path_segments` is modelled by the sequence it yields; laziness is not modelled.
- Query encoding and decoding, component rewriting and the format command: no code for them exists in the modelled files.
