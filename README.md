# logging-bullet-train: the coloured record formatter, in Dafny

This project models the record formatter of `logging_bullet_train`, a
Python package that renders log records as "powerline" lines. Each line
has four coloured segments joined by the arrow glyph U+E0B0:

- the timestamp;
- the level name;
- the logger name;
- the message, with the exception text after it.

The model covers:

- `ColoredIsoDatetimeFormatter.format`;
- the lookup tables it reads: `levelname_bg`, `message_fg` and `bg2fg`;
- the free function `bg_to_fg`.

Three modules:

- `Colorama` (`colorama.dfy`): the colorama escape codes as abstract values.
  - `Back` and `Fore` have the 17 attributes of colorama's classes.
  - `Style` has four.
  - Two codes are equal exactly when they are the same attribute of the same class.
- `Pieces` (`pieces.dfy`): a terminal line as a sequence of pieces.
  - Each piece is a code or a character.
  - Python's string `+` becomes sequence `+`.
  - A line has two views: `Plain` (what the terminal shows) and `Codes` (the escape codes, in order).
- `BulletTrain` (`bullet_train.dfy`): the tables, `bg_to_fg`, the four segments and `Format`.

`Format(record, ts)` is `format(record)`, where `ts` is the string that
`formatTime(record)` returned.

- A `LogRecord` holds what `format` reads from the record:
  - `levelname` and `name`;
  - the result of `getMessage()`;
  - the result of `formatException(exc_info)`, present exactly when `exc_info` is truthy.
- The two dictionary indexes in `format`, `bg2fg[level_bg]` and `bg2fg[Back.CYAN]`, are Dafny map indexes in the model. A map index is only well formed when its key is present, so the verifier proves that these two lookups never raise `KeyError`. The `KeyError` that `bg_to_fg` raises on a code that is not a background is modelled as the result `None`.
- `Format` is a function of its inputs, and all the tables are constants. So `format` is deterministic for a given record and timestamp.

Two points where a reader might expect more than the code does, and the model follows the code:

- The comments in `tests/test_set_logger.py` (lines 11-16) show a per-level emoji next to each level name. `format` emits no emoji.
- The time zone of `ts` is the one named by the `TZ` environment variable, or UTC when `TZ` is unset or empty (`logging_bullet_train/__init__.py`, line 71). The host's local time zone is not consulted.

## Model

| member | source | states |
|---|---|---|
| BulletTrain.LevelTablesDomain | logging_bullet_train/__init__.py:9-22 | `levelname_bg` and `message_fg` are keyed by exactly the same five level names. |
| BulletTrain.ContrastTablesDomain | logging_bullet_train/__init__.py:23-63 | `bg2fg` and the dictionary inside `bg_to_fg` are each keyed by exactly the 17 colorama backgrounds. |
| BulletTrain.Bg2FgTotal | logging_bullet_train/__init__.py:23-41 | `bg2fg` has an entry for every colorama background. |
| BulletTrain.ContrastFgTotal | logging_bullet_train/__init__.py:44-63 | The dictionary inside `bg_to_fg` has an entry for every colorama background. |
| BulletTrain.TablesAgreeOffStandard | logging_bullet_train/__init__.py:23-63 | On `RESET` and the eight light colours, `bg2fg` gives the same foreground that `bg_to_fg` chooses. |
| BulletTrain.TablesDifferOnStandard | logging_bullet_train/__init__.py:23-63 | On each of the eight standard colours, `bg2fg` gives a different foreground from the one `bg_to_fg` chooses. |
| BulletTrain.BgToFg | logging_bullet_train/__init__.py:44-63 | `bg_to_fg` returns a foreground exactly when its argument is a `Back` code. Any other code raises `KeyError`. The result is always `Fore.WHITE` or `Fore.BLACK`. |
| BulletTrain.LevelBackground | logging_bullet_train/__init__.py:81 | The level background of each of the five known levels. Any other level name falls back to `Back.BLACK`. |
| BulletTrain.MessageForeground | logging_bullet_train/__init__.py:82 | The message foreground of each of the five known levels. Any other level name falls back to `Fore.WHITE`. |
| BulletTrain.ArrowLookupsDefined | logging_bullet_train/__init__.py:91-95 | Every `Back` value `format` can use with `bg2fg` has an entry there: each level background, the black fallback and cyan. `bg2fg[Back.CYAN]` is `Fore.CYAN`. |
| BulletTrain.ArrowMatchesMessage | logging_bullet_train/__init__.py:81-91 | The arrow out of the level segment has the same colour as the message exactly when the level is one of the five known ones. |
| BulletTrain.LeftJustify | logging_bullet_train/__init__.py:90 | The `:8s` field is `max(8, len(levelname))` characters long. |
| BulletTrain.SpacesAt | logging_bullet_train/__init__.py:90 | The padding of the `:8s` field is made only of spaces. |
| BulletTrain.LeftJustifyPads | logging_bullet_train/__init__.py:90 | The `:8s` field starts with the whole level name, never truncated. The rest of the field is spaces. |
| BulletTrain.Segment | logging_bullet_train/__init__.py:85-96 | A segment is its codes, its text and three more pieces long: two resets and the arrow. |
| BulletTrain.SegmentViews | logging_bullet_train/__init__.py:85-96 | A segment shows its text and then the arrow. Its codes are its opening codes, a reset, its bridge codes and a reset. |
| BulletTrain.SegmentPieces | logging_bullet_train/__init__.py:85-96 | A segment holds, piece by piece: the opening codes, the text verbatim, a reset, the bridge codes, the arrow and a reset. |
| BulletTrain.TimeColored | logging_bullet_train/__init__.py:85-88 | `time_colored` is the timestamp and nine more pieces long: four colour codes, two spaces, two resets and the arrow. `TimeLayout` gives its content. |
| BulletTrain.LevelColored | logging_bullet_train/__init__.py:89-92 | `level_colored` is the padded level name and eight more pieces long: three colour codes, two spaces, two resets and the arrow. Its requires is the presence of `level_bg` in `bg2fg`. `LevelLayout` gives its content. |
| BulletTrain.NameColored | logging_bullet_train/__init__.py:93-96 | `name_colored` is the logger name and seven more pieces long: two colour codes, two spaces, two resets and the arrow. `NameLayout` gives its content. |
| BulletTrain.Tail | logging_bullet_train/__init__.py:98-99 | Without `exc_info` nothing is appended. With it, a newline and then the exception text verbatim. |
| BulletTrain.SegmentAt | logging_bullet_train/__init__.py:85-96 | Wherever a segment sits in a line, the line holds that same layout from the segment's offset on. |
| BulletTrain.NameArrowCyan | logging_bullet_train/__init__.py:93-96 | The logger-name segment's arrow is drawn in `Fore.CYAN`, the value of `bg2fg[Back.CYAN]`. |
| BulletTrain.MessageColored | logging_bullet_train/__init__.py:97-99 | The message segment's length: the message, the tail (a newline and the exception text, when there is one) and three more pieces: the foreground, a space and a reset. |
| BulletTrain.MessageViews | logging_bullet_train/__init__.py:97-99 | The message segment shows one space, the message and the exception text. Its only codes are the message foreground and one reset. |
| BulletTrain.MessageAt | logging_bullet_train/__init__.py:97-99 | A line ending in the message segment holds, piece by piece: the foreground, the message verbatim, a reset, then the exception text verbatim, and nothing after it. |
| BulletTrain.Format | logging_bullet_train/__init__.py:79-103 | The length of the line: timestamp, padded level name, logger name, message and exception text, plus 27 codes, spaces and arrows. Its body indexes `bg2fg` only where the key is present, so the lookups `bg2fg[level_bg]` and `bg2fg[Back.CYAN]` never raise `KeyError`. |
| BulletTrain.FormatSplit | logging_bullet_train/__init__.py:102 | The line is the four segments in order, each at the offset that the lengths of the earlier texts give. |
| BulletTrain.FormatText | logging_bullet_train/__init__.py:84-103 | With the codes stripped, the line reads as follows. The timestamp, the level name padded to 8 and the logger name, each between spaces and followed by an arrow. Then a space, the message and the exception text. |
| BulletTrain.FormatColours | logging_bullet_train/__init__.py:84-103 | The codes in the line, in order, segment by segment. Each segment's colours are followed by a reset, and the last code is a reset. |
| BulletTrain.TimeLayout | logging_bullet_train/__init__.py:85-88 | The line starts with the timestamp segment. It is black on white, with the timestamp verbatim between spaces, and an arrow from white into the level background. |
| BulletTrain.LevelLayout | logging_bullet_train/__init__.py:89-92 | Next comes the level segment. It is on the level background, with the padded level name verbatim between spaces, and an arrow in `bg2fg[level_bg]` on cyan. |
| BulletTrain.NameLayout | logging_bullet_train/__init__.py:93-96 | Next comes the logger-name segment. It is on cyan, with the logger name verbatim between spaces, and a cyan arrow. |
| BulletTrain.MessageLayout | logging_bullet_train/__init__.py:97-99 | The line ends with the message segment. It is in the level's foreground, with the message verbatim after a space, a reset, and then the uncoloured exception text. |
| BulletTrain.NoExceptionEndsInReset | logging_bullet_train/__init__.py:97-103 | Without exception text, the last piece of the line is a reset. |
| BulletTrain.ExceptionAppended | logging_bullet_train/__init__.py:97-99 | With exception text, the line is the line the same record gives without it, then a newline and the text, uncoloured. Nothing else changes. |

## Left out

- `IsoDatetimeFormatter.formatTime` (lines 66-75) is not modelled. It converts `record.created`, the creation time `logging` stored in the record, to the zone named by `TZ` (or UTC) through the time zone database. It drops the microseconds and returns `isoformat()`. Its result is the parameter `ts` of `Format`.
- `record.getMessage()` and `formatException(exc_info)` are calls into the standard `logging` module. Their results are strings in `LogRecord`.
- `Format` models only the runs in which `formatTime`, `getMessage` and `formatException` returned. Their failures are not modelled:
  - `formatTime` raises `ZoneInfoNotFoundError`, a subclass of `KeyError`, when `TZ` names an unknown zone.
  - `getMessage` raises `TypeError` when the message template and its arguments do not match.
- `exc_info` is only tested for truthiness. It is modelled as whether the exception text is present.
- `bullet_train_style_prompt` (lines 106-136) is a demonstration that prints a sample prompt. It is not part of this model.
- `set_logger` (lines 139-159) registers a handler with the `logging` framework. It is not part of this model.
- The `__main__` block (lines 162-168) is not part of this model.
- The byte values of the ANSI escape sequences are not modelled. Each code is one abstract piece.
  - So a message that itself contains escape sequences is modelled as plain characters.
  - The model does not capture how a terminal would read such a message.
- `BgToFg`: Python's `bg_to_fg` accepts any string. The model accepts any colorama code, so a string that is no colorama code at all is not modelled. Such a string raises `KeyError` in Python too.
- Python strings are sequences of code points. Dafny strings are sequences of Unicode scalar values. So the lengths in the model are `len` in Python, except that surrogate code points, which a Dafny string cannot hold, are not modelled.
