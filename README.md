# EleksTubeHAX in Dafny

EleksTubeHAX is replacement firmware for the EleksTube IPS family of six-digit
clocks (ESP32 boards with one small TFT display per digit), together with the
host-side scripts that build and package it. This project models the core of
that repository and proves properties of the model:

- **Image assembly** (`unified_binary.dfy`, `legacy_unified_binary.dfy`). The
  post-build scripts read the partition table and resolve the application and
  filesystem offsets. They normalise the build host's list of extra images,
  locate the filesystem image and build the argument list of the image-merging
  tool.
- **Build helpers** (`tft_config.dfy`, `bmp_to_clk.dfy`). The sanitiser that
  prepares the TFT library's configuration header, and the converter from
  bitmap clock faces to the raw RGB565 `.clk` format.
- **Time keeping** (`rtc_rx8025t.dfy`, `ntp_client.dfy`, `clock.dfy`,
  `pio_clock.dfy`). The RX8025T real-time-clock driver's register encoding
  and read-modify-write updates. The NTP client's packet checks and epoch
  arithmetic. The clock's adaptive NTP interval and its choice between NTP and
  RTC time.
- **Main loop** (`main.cpp` in `main.dfy` and `pio_main.dfy`). The UTC-offset
  menu, the night-time test, the mapping between MQTT state values and clock
  faces, the geolocation offset acceptance with its retry budget, and the
  device name.
- **Networking** (`wifi_wps.dfy`, `mqtt_client.dfy`, `pio_mqtt_client.dfy`,
  `pio_mqtt_commands.dfy`, `report_walk.dfy`). WiFi reconnection and the WPS
  session. The MQTT clients' topic parsing, command dispatch and change-only
  reports.
- **Shared vocabulary** (`common.dfy`, `text.dfy`). Fixed-width integer
  arithmetic and C division. ASCII text, C strings, and the parts of Python's
  `str` and `int` semantics that the scripts rely on.

Everything outside the processor is a parameter of the model: files, the
subprocess, the network, the I2C bus, `millis()` and random numbers. Each
answer such a collaborator could give is a value passed in. Code that mutates
globals or objects step by step is modelled as a Dafny `class` with `modifies`
clauses, and each of its methods is proved against a function that states
what it computes. Pure logic is modelled as functions, with lemmas for the
properties the code relies on.

Where the two firmware trees (`src/` and `EleksTubeHAX_pio/src/`) contain the
same code, it is modelled once. The `UTC offset` menu, `isNightTime`,
`getHoursTens`, the configuration defaults and `endsWith` are modelled once
each, and the row cites the `src/` lines. Where the trees differ, each variant
has its own member.

Three behaviours of the build scripts are worth stating outright:

- The image assembler runs the merge tool once and exits with its status;
  there is no second attempt.
- When several rows of the partition table name the application partition,
  the **last** canonical row wins.
- An unset partitions setting and a missing partitions file both raise
  `FileNotFoundError`.

## Model

| member | source | states |
|---|---|---|
| FixedWidth.U8 | EleksTubeHAX_pio/src/Mqtt_client_ips.cpp:728-732 | a value stored in a `byte`/`uint8_t` is below 256 and congruent to the value modulo 256 |
| FixedWidth.U32 | EleksTubeHAX_pio/src/Mqtt_client_ips.cpp:62 | a value stored in a `uint32_t` is below 2^32 and congruent to the value modulo 2^32 |
| FixedWidth.Elapsed | src/WiFi_WPS.cpp:221 | `millis() - last` is the plain difference when the clock has not wrapped, and the difference plus 2^32 when it has |
| FixedWidth.CDiv | src/main.cpp:737 | C division truncates toward zero: the quotient's size is the sizes' quotient and its sign the dividend's |
| FixedWidth.CMod | src/main.cpp:738 | the C remainder has the dividend's sign and the size of the sizes' remainder |
| Ascii.ToLower | src/main.cpp:214 | `tolower` maps an upper-case ASCII letter to its lower-case letter and leaves every other character alone |
| Ascii.Lower | scripts/script_build_unified_binary.py:82 | `str.lower()` on ASCII text folds each character, keeping the length |
| Ascii.LowerIdempotent | scripts/script_build_unified_binary.py:82 | lower-casing twice is lower-casing once |
| Ascii.FirstNul | src/MQTT_client_ips.cpp:1237-1238 | `strlen` is the index of the first NUL, or the whole buffer when there is none |
| Ascii.CString | src/MQTT_client_ips.cpp:1237-1238 | the C string a buffer holds is a NUL-free prefix ended by a NUL or by the end of the buffer |
| Ascii.Decimal | src/MQTT_client_ips.cpp:849 | `%d` of a natural number is digits only, without a leading zero |
| Ascii.DecimalRoundTrip | src/MQTT_client_ips.cpp:849 | the `%d` text reads back as the number |
| Ascii.TwoDigits | src/main.cpp:743 | `%02d` of a value below 100 is its tens digit and its units digit |
| Ascii.Hex2Upper | src/main.cpp:207-208 | `%02X` of a byte is two characters from '0'-'9' and 'A'-'F': the high nibble, then the low nibble |
| Ascii.UpperHexUnique | src/main.cpp:207-208 | two `%02X` texts are equal exactly when their bytes are, so the text names its byte and a byte has one text |
| PyText.Strip | scripts/script_build_unified_binary.py:82 | `str.strip()` is the slice of the text between a whitespace-only head and a whitespace-only tail, and it starts and ends with non-whitespace (so it is empty exactly for all-whitespace text); text without whitespace is returned as it was |
| PyText.StripIdempotent | scripts/script_build_unified_binary.py:82 | stripping twice is stripping once |
| PyText.StripLowerFixed | scripts/script_build_unified_binary.py:82 | text that is lower-cased and stripped is fixed by both operations |
| PyText.Words | scripts/script_build_unified_binary.py:144 | `str.split()` gives non-empty words without whitespace |
| PyText.WordsOfJoin | scripts/script_build_unified_binary.py:144 | splitting a space-joined list of words gives the words back |
| PyText.PyHexParses | scripts/script_build_unified_binary.py:86 | `int(hex(n), 0) == n` for every integer |
| PyText.DecimalParses | scripts/script_build_unified_binary.py:86 | `int(str(n), 0) == n` for every natural number |
| PyText.IntBase0 | scripts/script_build_unified_binary.py:86 | Python `int(v, 0)` on stripped text: an optional sign, then a 0x/0o/0b literal or a decimal literal without leading zeros, `_` only between digits; None where Python raises ValueError (its read-backs are PyHexParses, DecimalParses and the two hex-literal lemmas) |
| PyText.PositiveHexLiteral | scripts/script_build_unified_binary.py:86 | "0x" before a valid digit part parses to its value under `int(v, 0)` |
| PyText.NegativeHexLiteral | scripts/script_build_unified_binary.py:86 | "-0x" before a valid digit part parses to its negated value |
| PyText.PathJoin | scripts/script_build_unified_binary.py:67 | `os.path.join` of a relative component ends with it, and after a directory without a trailing '/' inserts one '/' |
| UnifiedBinary.SixFields | scripts/script_build_unified_binary.py:76-78 | a kept record becomes exactly six fields, each stripped, short records padded with "" and long ones cut after the sixth |
| UnifiedBinary.KeptRowsShape | scripts/script_build_unified_binary.py:74-79 | every row the reader keeps has six trimmed fields, and there are never more rows than records |
| UnifiedBinary.KeptRowsAppend | scripts/script_build_unified_binary.py:74-79 | the reader keeps rows in file order: reading two parts gives the rows of the first part, then those of the second |
| UnifiedBinary.KeptRowsSingle | scripts/script_build_unified_binary.py:75-78 | a record is kept, as its six trimmed fields, exactly when it is non-empty and its first field does not start with "#" after stripping |
| UnifiedBinary.ReadPartitionsCsv | scripts/script_build_unified_binary.py:61-79 | a missing or empty partitions setting raises FileNotFoundError, a missing file raises FileNotFoundError, otherwise the kept rows are returned |
| UnifiedBinary.HexifyIdempotent | scripts/script_build_unified_binary.py:81-88 | whatever `_hexify` returns is its own normal form: applying it again changes nothing |
| UnifiedBinary.Hexify | scripts/script_build_unified_binary.py:81-88 | `_hexify`: lower-case and strip, keep text starting "0x", re-render through `hex()` what `int(v, 0)` accepts, return the rest as it is (the lemmas below state what this means) |
| UnifiedBinary.HexifyDecimal | scripts/script_build_unified_binary.py:85-86 | a decimal offset is re-rendered through `hex()`, e.g. "65536" becomes "0x10000" |
| UnifiedBinary.HexifyKeepsHexText | scripts/script_build_unified_binary.py:82-84 | text that starts with "0x" once lower-cased and stripped is returned as that lower-cased, stripped text |
| UnifiedBinary.HexifyUnparseable | scripts/script_build_unified_binary.py:85-88 | text that `int(v, 0)` rejects is returned lower-cased and stripped, not raised |
| UnifiedBinary.HexifyEmpty | scripts/script_build_unified_binary.py:81-88 | the empty offset cell stays "", so the caller treats it as falsy |
| UnifiedBinary.ScanAppNone | scripts/script_build_unified_binary.py:96-99 | the scan leaves the app offset unset exactly when no row is an `app` row of subtype `factory` or `app0` |
| UnifiedBinary.ScanAppLast | scripts/script_build_unified_binary.py:96-99 | the last canonical app row sets the app offset (hexified), whatever rows came before it |
| UnifiedBinary.ScanFsNone | scripts/script_build_unified_binary.py:96-101 | the scan leaves the filesystem offset unset exactly when no row is a `data` row of subtype spiffs, littlefs or fatfs |
| UnifiedBinary.ScanFsLast | scripts/script_build_unified_binary.py:96-101 | the last filesystem row sets the offset (hexified) and the kind (its lower-cased subtype) |
| UnifiedBinary.HexKeys | scripts/script_build_unified_binary.py:105-106 | the sort keys `int(x, 16)` are computed for every candidate in order, and a ValueError is raised exactly when one does not parse |
| UnifiedBinary.FirstMin | scripts/script_build_unified_binary.py:106 | the chosen index holds the smallest key and no earlier index holds an equal one, which is what the stable sort puts first |
| UnifiedBinary.FallbackSmallest | scripts/script_build_unified_binary.py:103-106 | when every candidate starts with "0x" the fallback picks the numerically smallest, the first of equals |
| UnifiedBinary.FallbackFirst | scripts/script_build_unified_binary.py:107-108 | when some candidate does not start with "0x" the fallback picks the first candidate in table order |
| UnifiedBinary.CanonicalRowWins | scripts/script_build_unified_binary.py:103 | a truthy offset from a canonical app row is the result, and the fallback is never consulted |
| UnifiedBinary.ScanRows | scripts/script_build_unified_binary.py:96-101 | the loop over all rows ends with the app offset, the filesystem offset and the kind of the last matching rows |
| UnifiedBinary.FindOffsetsFromCsv | scripts/script_build_unified_binary.py:90-110 | the setting and file errors of the reader, then the scan, then the fallback only while the app offset is falsy |
| UnifiedBinary.FirstExisting | scripts/script_build_unified_binary.py:124-127 | the result is None exactly when no candidate exists, and otherwise the first candidate that exists |
| UnifiedBinary.ResolveFsImageChoice | scripts/script_build_unified_binary.py:112-127 | "spiffs" may only use spiffs.bin, "littlefs" only littlefs.bin, any other kind tries spiffs.bin and then littlefs.bin |
| UnifiedBinary.PairUp | scripts/script_build_unified_binary.py:145-146 | consecutive tokens are paired and a trailing odd token is dropped |
| UnifiedBinary.PassThrough | scripts/script_build_unified_binary.py:155-158 | each two-element list or tuple becomes one pair, in order |
| UnifiedBinary.AppendPairs | scripts/script_build_unified_binary.py:145-146 | the pairing loop appends exactly the pairs of consecutive tokens |
| UnifiedBinary.PassThroughLoop | scripts/script_build_unified_binary.py:156-157 | the loop over two-element items gives the pass-through pairs |
| UnifiedBinary.StringListLoop | scripts/script_build_unified_binary.py:161-172 | for a list of strings: pairs from two-token elements first, then the pairs of the buffered tokens of all other elements |
| UnifiedBinary.FlattenLoop | scripts/script_build_unified_binary.py:175-180 | the fallback flattens one level, passing every element through `str` |
| UnifiedBinary.NormalizeExtraImages | scripts/script_build_unified_binary.py:129-183 | falsy input gives [], a string is split and paired, pairs pass through, string lists pair directly or via the buffer, anything else is flattened and paired |
| UnifiedBinary.StringsSnoc | scripts/script_build_unified_binary.py:163-169 | one more string element pairs at once when it splits into two tokens and is buffered otherwise |
| UnifiedBinary.NormalizeShapesAgree | scripts/script_build_unified_binary.py:130-136 | the four shapes the docstring accepts (joined string, flat list, list of tuples, list of "offset file" strings) give the same pairs |
| UnifiedBinary.StringItemsNormalize | scripts/script_build_unified_binary.py:161-172 | a non-empty list of strings takes the string branch: direct pairs, then the buffered pairs |
| UnifiedBinary.RunOutcome | scripts/script_build_unified_binary.py:47-54 | a non-zero exit status of the child ends the script with that same status; zero lets it continue |
| UnifiedBinary.MergeHeader | scripts/script_build_unified_binary.py:236-243 | the fixed head of the merge-bin arguments has 11 entries |
| UnifiedBinary.SectionArgsAt | scripts/script_build_unified_binary.py:244-245 | section k contributes its offset at position 2k and its file at 2k+1 |
| UnifiedBinary.PlanLayout | scripts/script_build_unified_binary.py:210-229 | the sections are the extra images in order, then the application at the app offset, then the filesystem image only when its offset is set and the file exists |
| UnifiedBinary.PlanWithoutApp | scripts/script_build_unified_binary.py:210-213 | no app offset ends the action with exit code 1 before esptool runs |
| UnifiedBinary.MergeArgs | scripts/script_build_unified_binary.py:236-245 | the argument loop yields the fixed head followed by each section's offset and file |
| UnifiedBinary.CreateCombinedBin | scripts/script_build_unified_binary.py:198-248 | an error or early exit runs nothing; otherwise esptool runs once with the merge arguments, and its non-zero status becomes the script's exit code |
| UnifiedBinary.MergeArgsLayout | scripts/script_build_unified_binary.py:236-245 | the full argument list holds section k's offset at 11+2k and its file at 12+2k |
| UnifiedBinary.BuildfsCommand | scripts/script_build_unified_binary.py:187-194 | the buildfs command is `python -m platformio run [-e env] --target buildfs`, with `-e` only for a non-empty environment name |
| UnifiedBinary.PairUpTokens | scripts/script_build_unified_binary.py:145-146 | pairing the flattened tokens of a list of pairs gives the pairs back |
| UnifiedBinary.NormalizeJoined | scripts/script_build_unified_binary.py:143-146 | one string of space-separated offsets and files normalises to its pairs |
| UnifiedBinary.NormalizeFlat | scripts/script_build_unified_binary.py:161-172 | a flat list of offset and file strings normalises to its pairs |
| UnifiedBinary.NormalizeTuples | scripts/script_build_unified_binary.py:155-159 | a list of two-element tuples normalises to the same pairs |
| UnifiedBinary.NormalizeSpaced | scripts/script_build_unified_binary.py:161-172 | a list of "offset file" strings normalises to the same pairs |
| LegacyUnifiedBinary.FirstSpace | EleksTubeHAX_pio/script_build_unified_binary.py:70 | the split point is the first space of the section string, or its end when there is none |
| LegacyUnifiedBinary.SplitSectionSpec | EleksTubeHAX_pio/script_build_unified_binary.py:70 | the two-value unpack fails exactly for a section with no space; otherwise the address is the text before the first space and the file is all the rest, spaces included |
| LegacyUnifiedBinary.SplitSectionJoin | EleksTubeHAX_pio/script_build_unified_binary.py:70 | an address without spaces, a space and any file name split back into that address and file |
| LegacyUnifiedBinary.Header | EleksTubeHAX_pio/script_build_unified_binary.py:54-66 | the command starts with the 11 fixed entries `--chip chip merge-bin -o FW_<prog>.bin --flash-mode m --flash-freq f --flash-size s` |
| LegacyUnifiedBinary.SectionArgsLength | EleksTubeHAX_pio/script_build_unified_binary.py:69-72 | when no section fails, each contributes exactly two entries |
| LegacyUnifiedBinary.SectionArgsFails | EleksTubeHAX_pio/script_build_unified_binary.py:69-72 | the section loop fails exactly when some section holds no space |
| LegacyUnifiedBinary.SectionArgsAt | EleksTubeHAX_pio/script_build_unified_binary.py:69-72 | section k's address and file sit at positions 2k and 2k+1, in input order |
| LegacyUnifiedBinary.CommandLayout | EleksTubeHAX_pio/script_build_unified_binary.py:54-75 | a finished command has 11 + 2(n+1) entries: the header, the n section pairs in order, and the (ESP32_APP_OFFSET, firmware) pair last |
| LegacyUnifiedBinary.CreateCombinedBin | EleksTubeHAX_pio/script_build_unified_binary.py:39-80 | the loop that extends the command section by section and then appends the app yields the command, or the ValueError of the first section without a space |
| LegacyUnifiedBinary.PrefixFailure | EleksTubeHAX_pio/script_build_unified_binary.py:69-72 | the first section that fails decides the error: later sections are never reached |
| LegacyUnifiedBinary.BuildfsOutcome | EleksTubeHAX_pio/script_build_unified_binary.py:28-36 | a non-zero status of the buildfs subprocess ends the script with status 1; status 0 lets it continue |
| LegacyUnifiedBinary.BuildfsCommand | EleksTubeHAX_pio/script_build_unified_binary.py:19-26 | the buildfs command is `python -m platformio run --target buildfs`, with no environment option |
| BmpToClk.Pack | tools/conv-bmp-to-clk.py:42-46 | the RGB565 value of a pixel always fits in 16 bits |
| BmpToClk.PackDecode | tools/conv-bmp-to-clk.py:42-46 | decoding a packed pixel gives back the kept bits: p>>11 = R>>3, (p>>5)&0x3F = G>>2 and p&0x1F = B>>3 |
| BmpToClk.LittleEndian16 | tools/conv-bmp-to-clk.py:33-34 | `to_bytes(2, "little")` gives two bytes, low byte first, that reassemble the value |
| BmpToClk.PixelBytes | tools/conv-bmp-to-clk.py:48 | each pixel is written as the two little-endian bytes of its RGB565 value |
| BmpToClk.RowBytes | tools/conv-bmp-to-clk.py:38-48 | a row of w pixels takes 2w bytes |
| BmpToClk.WriteClk | tools/conv-bmp-to-clk.py:29-48 | the nested y/x loops write the header and then the pixels; a width or height of 65536 or more stops the write at the header field that overflows |
| BmpToClk.ClkLength | tools/conv-bmp-to-clk.py:31-48 | a complete file is 6 + 2·W·H bytes long |
| BmpToClk.Clk | tools/conv-bmp-to-clk.py:31-48 | the bytes one conversion writes: the magic, then a width of 65536 or more stops the file; else the width, then a height of 65536 or more stops it; else the height and the row-major pixel data, complete (ClkLength, ClkLayout and ClkPixelAt state the layout) |
| BmpToClk.ClkLayout | tools/conv-bmp-to-clk.py:31-34 | a complete file starts with 'C', 'K', the width and the height as 2-byte little-endian values, and the pixel data follows |
| BmpToClk.RowsBytesAt | tools/conv-bmp-to-clk.py:37-48 | pixel (x, y) sits at offset 2x of row y, and row y starts at offset 2yW of the pixel data: rows top to bottom, pixels left to right |
| BmpToClk.ClkPixelAt | tools/conv-bmp-to-clk.py:37-48 | the two bytes at offset 6 + 2(yW + x) of the file are those of pixel (x, y) |
| BmpToClk.BmpFiles | tools/conv-bmp-to-clk.py:11 | exactly the listed names whose lower-case form ends in ".bmp" are selected |
| BmpToClk.LastIndex | tools/conv-bmp-to-clk.py:18 | the index of the last occurrence of a character, or -1 |
| BmpToClk.ClkNameOfBmp | tools/conv-bmp-to-clk.py:18-19 | a selected name loses its ".bmp" extension and gains ".clk", unless the stem is empty or all dots, when the whole name is kept |
| BmpToClk.Planned | tools/conv-bmp-to-clk.py:16-19 | there is one output path and one file content per selected name, in order |
| BmpToClk.RunStep | tools/conv-bmp-to-clk.py:16-50 | one image is written; a complete one lets the run go on, an incomplete one ends it |
| BmpToClk.ConvertFiles | tools/conv-bmp-to-clk.py:16-50 | the loop over the selected names writes the planned files up to and including the first failure |
| BmpToClk.ConvertFolder | tools/conv-bmp-to-clk.py:6-52 | only the .bmp names are converted, each to `<out>/<root>.clk`, and with none selected nothing is written |
| BmpToClk.RunUntilFailureSpec | tools/conv-bmp-to-clk.py:16-50 | the files written are the plan's prefix up to the first failure, and the run is complete exactly when every image fits |
| TftConfig.TargetFile | scripts/script_configure_tft_lib.py:12-16 | the target is `.pio/libdeps/<env>/TFT_eSPI/User_Setup.h`, inside the target directory, with the environment name between the fixed parts |
| TftConfig.ReplaceSkips | scripts/script_configure_tft_lib.py:36 | text without a 'G' passes through the rename unchanged |
| TftConfig.ReplaceKeepsPrefix | scripts/script_configure_tft_lib.py:36 | a prefix without 'G' and 'T' after the rename was already there before it |
| TftConfig.ReplaceGuardClears | scripts/script_configure_tft_lib.py:36 | no occurrence of GLOBAL_DEFINES_H_ is left after the rename |
| TftConfig.GuardFreeFixed | scripts/script_configure_tft_lib.py:36 | the rename changes a text exactly when it holds GLOBAL_DEFINES_H_ |
| TftConfig.ReplaceGuardIdempotent | scripts/script_configure_tft_lib.py:36 | renaming twice gives the same text as renaming once |
| TftConfig.ReplaceAcrossBreak | scripts/script_configure_tft_lib.py:36 | no occurrence spans a line break, so the rename acts line by line |
| TftConfig.SpaceRun | scripts/script_configure_tft_lib.py:33 | the `\s*` run at the head of a text is maximal: it is all whitespace and the next character is not |
| TftConfig.NameRun | scripts/script_configure_tft_lib.py:33 | the `[A-Z0-9_]+` run at the head of a text is maximal |
| TftConfig.MatchName | scripts/script_configure_tft_lib.py:33 | `([A-Z0-9_]+)\b` matches exactly when a non-empty name run is followed by a non-word character or the end of the line |
| TftConfig.MatchHardware | scripts/script_configure_tft_lib.py:33 | `\s+HARDWARE_` and the rest match only with a non-empty gap of whitespace and reassemble the text they were taken from |
| TftConfig.MatchDefineWord | scripts/script_configure_tft_lib.py:33 | `\s*define` and the rest match only with whitespace gaps and reassemble the text they were taken from |
| TftConfig.MatchDefine | scripts/script_configure_tft_lib.py:33 | a match at the start of a line has the pattern's shape and its parts reassemble the line |
| TftConfig.MatchDefineComplete | scripts/script_configure_tft_lib.py:33 | every line of the pattern's shape is matched, with exactly its indent and name |
| TftConfig.NoHashNoMatch | scripts/script_configure_tft_lib.py:33 | a line whose first non-blank character is not '#', such as one already starting with `//`, is never touched |
| TftConfig.SubLineSettled | scripts/script_configure_tft_lib.py:33 | a rewritten line (`<indent>// #define HARDWARE_<NAME><rest>`) no longer matches |
| TftConfig.SubLineIdempotent | scripts/script_configure_tft_lib.py:33 | rewriting a line twice gives the same line as rewriting it once |
| TftConfig.BoundaryReplace | scripts/script_configure_tft_lib.py:33-36 | the rename swaps one name text for another, so a word boundary after a name survives it |
| TftConfig.MatchAfterReplace | scripts/script_configure_tft_lib.py:33-36 | a line that matches after the rename matched before it |
| TftConfig.LineEnd | scripts/script_configure_tft_lib.py:33 | the first line break of a text, or its end; `^` with MULTILINE anchors after each one |
| TftConfig.LineSplit | scripts/script_configure_tft_lib.py:33 | the comment-out treats the first line and the rest of the text separately |
| TftConfig.SubLineKeepsBreaks | scripts/script_configure_tft_lib.py:33 | rewriting a line adds no line break, so the line structure is kept |
| TftConfig.CommentOutSettles | scripts/script_configure_tft_lib.py:33 | after the comment-out no line is an active `HARDWARE_` define |
| TftConfig.SettledFixed | scripts/script_configure_tft_lib.py:33 | text without an active `HARDWARE_` define is left as it is |
| TftConfig.ReplaceKeepsSettled | scripts/script_configure_tft_lib.py:33-36 | the rename cannot turn a settled line into an active define |
| TftConfig.SanitizeSpec | scripts/script_configure_tft_lib.py:28-38 | the content written back has no active `HARDWARE_` define and no old guard, and sanitising it again changes nothing |
| TftConfig.Sanitize | scripts/script_configure_tft_lib.py:28-38 | the content written back: the active `HARDWARE_` defines commented out, then the old guard renamed (its properties are SanitizeSpec's) |
| TftConfig.Configure | scripts/script_configure_tft_lib.py:21-41 | a failed copy ends the script; a failed read or write only warns; otherwise the sanitised content is written to the target file |
| Rx8025t.Dec2Bcd | EleksTubeHAX_pio/lib/modified_RTC_RX8025T/RTC_RX8025T.cpp:334-337 | `n + 6·(n/10)` in uint8_t equals (n/10)·16 + n%10 for 0 ≤ n ≤ 99 |
| Rx8025t.Bcd2Dec | EleksTubeHAX_pio/lib/modified_RTC_RX8025T/RTC_RX8025T.cpp:342-345 | `n - 6·(n>>4)` equals the tens nibble times ten plus the units nibble for valid BCD |
| Rx8025t.BcdRoundTrip | EleksTubeHAX_pio/lib/modified_RTC_RX8025T/RTC_RX8025T.cpp:334-345 | decoding an encoded 0..99 gives it back, and the encoding is valid BCD |
| Rx8025t.Wday2Bin | EleksTubeHAX_pio/lib/modified_RTC_RX8025T/RTC_RX8025T.cpp:311-314 | weekday w becomes the single bit 1 << (w-1), truncated to a byte |
| Rx8025t.Wday | EleksTubeHAX_pio/lib/modified_RTC_RX8025T/RTC_RX8025T.cpp:320-329 | for 1..0x7F the result is one plus the index of the highest set bit; any other byte comes back unchanged |
| Rx8025t.Bin2Wday | EleksTubeHAX_pio/lib/modified_RTC_RX8025T/RTC_RX8025T.cpp:320-329 | the loop that overwrites `wday` with i+1 whenever `wday >> i == 1` computes that weekday |
| Rx8025t.WdayRoundTrip | EleksTubeHAX_pio/lib/modified_RTC_RX8025T/RTC_RX8025T.cpp:311-329 | every weekday 1..7 written as a bit reads back as itself |
| Rx8025t.EncodeTime | EleksTubeHAX_pio/lib/modified_RTC_RX8025T/RTC_RX8025T.cpp:147-160 | `write` sends seven bytes: BCD seconds, minutes, hours, the weekday bit, BCD day, month and year − 30 |
| Rx8025t.TimeRoundTrip | EleksTubeHAX_pio/lib/modified_RTC_RX8025T/RTC_RX8025T.cpp:124-160 | reading back the seven bytes that `write` sends gives the time that was written |
| Rx8025t.Read | EleksTubeHAX_pio/lib/modified_RTC_RX8025T/RTC_RX8025T.cpp:124-140 | a non-zero bus status is returned and leaves the time unset; status 0 decodes the received bytes |
| Rx8025t.Get | EleksTubeHAX_pio/lib/modified_RTC_RX8025T/RTC_RX8025T.cpp:98-105 | a failed read gives 0, otherwise `makeTime` of the decoded time |
| Rx8025t.SetThenGet | EleksTubeHAX_pio/lib/modified_RTC_RX8025T/RTC_RX8025T.cpp:98-118 | a time that the registers can hold is returned by a successful `get` after `set` |
| Rx8025t.Masked | EleksTubeHAX_pio/lib/modified_RTC_RX8025T/RTC_RX8025T.cpp:225-234 | `(reg & ~mask) \| (mask & option)` keeps the bits outside the mask and takes the option's bits inside it |
| Rx8025t.MaskedIdempotent | EleksTubeHAX_pio/lib/modified_RTC_RX8025T/RTC_RX8025T.cpp:225-305 | setting the same masked bits again changes nothing |
| Rx8025t.Chip.constructor | EleksTubeHAX_pio/lib/modified_RTC_RX8025T/RTC_RX8025T.cpp:169-217 | the chip starts with the given register values and no writes sent |
| Rx8025t.Chip.WriteReg | EleksTubeHAX_pio/lib/modified_RTC_RX8025T/RTC_RX8025T.cpp:183-193 | one register takes the value, the others keep theirs, and the write is logged |
| Rx8025t.Chip.InitTui | EleksTubeHAX_pio/lib/modified_RTC_RX8025T/RTC_RX8025T.cpp:225-234 | the USEL bit of the extension register takes the option's, in one write |
| Rx8025t.Chip.StatusTui | EleksTubeHAX_pio/lib/modified_RTC_RX8025T/RTC_RX8025T.cpp:240-249 | the UIE bit of the control register takes the argument's, in one write |
| Rx8025t.Chip.TempCompensation | EleksTubeHAX_pio/lib/modified_RTC_RX8025T/RTC_RX8025T.cpp:279-288 | the CSEL0/CSEL1 bits of the control register take the option's, in one write |
| Rx8025t.Chip.InitFout | EleksTubeHAX_pio/lib/modified_RTC_RX8025T/RTC_RX8025T.cpp:295-305 | the FSEL0/FSEL1 bits of the extension register take the option's, in one write |
| Rx8025t.Chip.CheckTui | EleksTubeHAX_pio/lib/modified_RTC_RX8025T/RTC_RX8025T.cpp:257-273 | a set UF flag is reported and cleared alone, in one write; otherwise nothing is written |
| Rx8025t.Chip.Init | EleksTubeHAX_pio/lib/modified_RTC_RX8025T/RTC_RX8025T.cpp:29-48 | the registers end as extension 0, status 0 and control INT_2_SEC, after the writes `InitWrites` lists |
| Rx8025t.InitWrites | EleksTubeHAX_pio/lib/modified_RTC_RX8025T/RTC_RX8025T.cpp:29-48 | a reset command is sent first exactly when VLF or VDET is set; the last three writes clear EXT and STATUS and set CONTROL |
| NtpClient.Request | EleksTubeHAX_pio/lib/modified_NTPClient/NTPClient.cpp:304-320 | the request is all zero except LI 3, version 4, mode 3, poll 6, precision 0xEC and the reference id "1N14" |
| NtpClient.Validate | EleksTubeHAX_pio/lib/modified_NTPClient/NTPClient.cpp:179-210 | a reply is accepted exactly when LI ≠ 3, version ≥ 4, mode 4, stratum 1..15 and a non-zero reference timestamp; each rejection names its failed check |
| NtpClient.RequestIsNoReply | EleksTubeHAX_pio/lib/modified_NTPClient/NTPClient.cpp:179-183 | the client's own request echoed back is rejected as unsynchronised |
| NtpClient.TransmitSeconds | EleksTubeHAX_pio/lib/modified_NTPClient/NTPClient.cpp:212-216 | the seconds are bytes 40..43 big-endian and fit in 32 bits |
| NtpClient.TransmitDigits | EleksTubeHAX_pio/lib/modified_NTPClient/NTPClient.cpp:212-216 | the base-256 digits of those seconds are bytes 40..43, most significant first |
| NtpClient.Epoch | EleksTubeHAX_pio/lib/modified_NTPClient/NTPClient.cpp:218 | the epoch is the NTP seconds less the 1900-to-1970 offset, modulo 2^32 |
| NtpClient.FirstArrival | EleksTubeHAX_pio/lib/modified_NTPClient/NTPClient.cpp:129-141 | the first of polls 0..100 that finds a packet, or none |
| NtpClient.AwaitReply | EleksTubeHAX_pio/lib/modified_NTPClient/NTPClient.cpp:129-141 | the wait succeeds exactly when a packet arrives by poll 100, and the counter is then one past that poll |
| NtpClient.EpochTime | EleksTubeHAX_pio/lib/modified_NTPClient/NTPClient.cpp:243-248 | offset + epoch + whole seconds since the last update, modulo 2^32 |
| NtpClient.Day | EleksTubeHAX_pio/lib/modified_NTPClient/NTPClient.cpp:250-253 | the weekday is 0..6 |
| NtpClient.Hours | EleksTubeHAX_pio/lib/modified_NTPClient/NTPClient.cpp:254-257 | the hour is 0..23 |
| NtpClient.Minutes | EleksTubeHAX_pio/lib/modified_NTPClient/NTPClient.cpp:258-261 | the minute is 0..59 |
| NtpClient.Seconds | EleksTubeHAX_pio/lib/modified_NTPClient/NTPClient.cpp:262-265 | the second is 0..59 |
| NtpClient.TimeOfDay | EleksTubeHAX_pio/lib/modified_NTPClient/NTPClient.cpp:254-265 | hours, minutes and seconds recompose the second of the day |
| NtpClient.DayStep | EleksTubeHAX_pio/lib/modified_NTPClient/NTPClient.cpp:250-253 | the epoch began on a Thursday (4) and each further day advances the weekday by one |
| NtpClient.Padded | EleksTubeHAX_pio/lib/modified_NTPClient/NTPClient.cpp:267-280 | a field below 100 is shown as two digits, with a leading "0" below ten |
| NtpClient.FormattedTime | EleksTubeHAX_pio/lib/modified_NTPClient/NTPClient.cpp:267-280 | "HH:MM:SS": eight characters, colons at 2 and 5, and the digit pairs read back as the hours, minutes and seconds |
| NtpClient.Client.constructor | EleksTubeHAX_pio/lib/modified_NTPClient/NTPClient.cpp:79-85 | a new client with a time offset and an update interval has never updated, holds epoch 0 and has no socket set up |
| NtpClient.Client.SendNtpPacket | EleksTubeHAX_pio/lib/modified_NTPClient/NTPClient.cpp:304-334 | the send succeeds exactly when `beginPacket`, a full-length write and `endPacket` succeed, and `endPacket` is called whenever `beginPacket` succeeded |
| NtpClient.Client.ForceUpdate | EleksTubeHAX_pio/lib/modified_NTPClient/NTPClient.cpp:114-223 | success needs a sent request, a reply by poll 100, a full-length read and a valid reply; the last-update time is set as soon as a reply arrives, the epoch only on success |
| NtpClient.Client.ReadReply | EleksTubeHAX_pio/lib/modified_NTPClient/NTPClient.cpp:144-219 | after a reply arrives: success exactly when the read returns the full packet and the reply passes every validity check; only then is the epoch taken from the transmit timestamp |
| NtpClient.Client.Update | EleksTubeHAX_pio/lib/modified_NTPClient/NTPClient.cpp:225-236 | nothing happens unless the interval has elapsed or no update has happened yet; then the socket is set up and `forceUpdate` decides |
| Clock.WithDefaults | src/Clock.cpp:256-280 | a config never written gets 24-hour display, no blanking, offset 3600 s and graphic 1 and is marked valid; a valid config is kept |
| Clock.DefaultsIdempotent | src/Clock.cpp:256-280 | loading the defaults a second time changes nothing |
| Clock.HoursTensRange | src/Clock.cpp:391-403 | for an hour of the day the digit is the blank glyph exactly when blanking is on and the hour is below ten, and otherwise hour/10, which is at most 2 |
| Clock.Pow2Monotone | src/Clock.cpp:441 | the doubling factor `1 << (failures - 1)` grows with the failure count |
| Clock.NextInterval | src/Clock.cpp:434-449 | the interval the code chooses: from three failures on it is the uint32_t doubling capped by `min`, so it is at most the maximum and fits in 32 bits (it can wrap below the cap; see Findings) |
| Clock.NextIntervalFixed | src/Clock.cpp:441 | the intended interval, with the doubling capped before it can wrap; with no failure or one failure it is the code's interval |
| Clock.BackoffGrows | src/Clock.cpp:436-442 | with the intended doubling, from three failures on each further failure keeps or lengthens the interval, never past the maximum |
| Clock.IntervalsAgree | src/Clock.cpp:441 | the code's interval is the intended one for up to 32 failures, as long as the doubled error interval fits in 32 bits |
| Clock.BackoffCollapses | src/Clock.cpp:439-441 | with the ten-minute error interval, the 27th failure in a row gives an interval of 0 where the intended one is the maximum |
| Clock.IntervalBounded | src/Clock.cpp:432-449 | when the configured intervals are at most the maximum, every interval the counters choose is too |
| Clock.SuccessLadder | src/Clock.cpp:443-449 | without failures the interval is the initial one below three successes, the normal one from three and the stable one from six |
| Clock.NtpSync.constructor | src/Clock.cpp:247-254 | NTP has never been asked, the interval is the initial one and both counters are zero |
| Clock.NtpSync.UpdateNtpInterval | src/Clock.cpp:432-453 | the interval becomes the one the counters choose, and TimeLib's sync interval is set only when it changed |
| Clock.NtpSync.HandleNtpSuccess | src/Clock.cpp:406-417 | failures are cleared, successes counted modulo 256, and the interval follows the success count |
| Clock.NtpSync.HandleNtpFailure | src/Clock.cpp:419-430 | successes are cleared, failures counted modulo 256, and the interval follows the failure count |
| Clock.NtpSync.SyncProvider | src/Clock.cpp:308-389 | not due gives the RTC time and changes nothing; a missing WiFi or failed query records a failure; an NTP time before 2025-03-30 that differs from the RTC gives the RTC time unrecorded; otherwise the NTP time is used, a success recorded, and the RTC set when it differs and is after 2025-10-28 |
| Clock.ClockState.constructor | src/Clock.cpp:256-262 | a new clock holds its config and no valid time |
| Clock.ClockState.Begin | src/Clock.cpp:256-291 | the config takes the defaults; the loop times are untouched |
| Clock.ClockState.Loop | src/Clock.cpp:293-305 | with TimeLib's time set the loop time is `now()` and the local time that plus the zone offset modulo 2^32; otherwise only the valid flag drops |
| PioClock.PioSync.constructor | EleksTubeHAX_pio/src/Clock.cpp:288 | NTP has never been asked |
| PioClock.PioSync.SyncProvider | EleksTubeHAX_pio/src/Clock.cpp:212-272 | NTP is asked only when strictly more than the refresh period has passed or never; only a used NTP time records the attempt, a time before 2025-03-30 that differs gives the RTC time, and a later differing one is written to the RTC |
| PioClock.NoRequeryWithinPeriod | EleksTubeHAX_pio/src/Clock.cpp:220 | after a used NTP time, a call within the refresh period does not ask again |
| PioClock.BoundaryDiffers | EleksTubeHAX_pio/src/Clock.cpp:220 | when exactly the period has passed, the `>=` test of the current firmware would ask NTP and this one does not |
| Main.SteppedOffset | src/main.cpp:704-724 | a menu step always lands within ±12 h: the plain sum when it fits, the other end of the range when it passes one |
| Main.StepOffset | src/main.cpp:704-724 | the menu code with its wrap-around flag computes the stepped offset (the 15-minute menu at 763-781 is the same code with 900 s) |
| Main.StepUndone | src/main.cpp:704-724 | one step forward and one back return to the start away from the ends of the range |
| Main.StepWraps | src/main.cpp:715-723 | stepping past +12 h lands on −12 h and past −12 h on +12 h, which show the same time of day |
| Main.OffsetText | src/main.cpp:736-755 | the offset text is the whole hours of the offset's magnitude, ':', and the whole minutes left over as two digits, preceded by '-' for an offset of a minute or more below zero, '+' for one of a minute or more above zero, and no sign otherwise ("0:00") |
| Main.TwoDigitsValue | src/main.cpp:743-754 | `%02d` of 0..99 reads back as the number |
| Main.ReadBack | src/main.cpp:736-755 | a sign, the hours, ':' and two minute digits read back as that signed number of minutes |
| Main.OffsetTextRoundTrip | src/main.cpp:736-755 | the offset text reads back as the offset cut to whole minutes toward zero, for every int8_t hour value |
| Main.OffsetValue | src/main.cpp:736-755 | the reading of an offset text against which the menu text is checked: an optional sign, the hours, ':' and two minute digits, as signed seconds |
| Main.NightIsClockwiseSpan | src/main.cpp:900-910 | both branches of `isNightTime` say the same: night is the hours from NIGHT_TIME clockwise up to, not including, DAY_TIME |
| Main.IsNightTime | src/main.cpp:900-910 | `isNightTime`: with DAY_TIME before NIGHT_TIME night wraps past midnight, otherwise it lies within the day (NightIsClockwiseSpan gives the common meaning) |
| Main.GraphicForState | src/main.cpp:423-430 | below 90 the face index is state/5 − 1 in C division, stored in a byte; from 90 on it is the random face |
| Main.StateForGraphic | src/main.cpp:545 | the reported state `(idx + 1) * 5` is a multiple of five |
| Main.GraphicRoundTrip | src/main.cpp:423-430 | a face index up to 16 is reported and, sent back, selects the same face |
| Main.StateRoundTrip | src/main.cpp:423-430 | a state from 5 to 89 comes back rounded down to a multiple of five |
| Main.AcceptGeoOffset | src/main.cpp:969-1004 | an accepted offset is the queried one, on the 15-minute grid, and within two hours of a valid stored offset that is neither 0 nor 3600; every such offset is accepted |
| Main.GeoLoc.constructor | src/main.cpp:156-162 | nothing is pending, no failures, no retry time, attempt day and last day 0 |
| Main.GeoLoc.CheckUpdateNeeded | src/main.cpp:1013-1039 | on Sunday at 03:00 with the seconds past 5, on a day not yet done, a pending update starts with a fresh budget for the day; otherwise nothing changes |
| Main.GeoLoc.ProcessUpdate | src/main.cpp:1041-1103 | a pending update has fewer than four failures behind it after any call; the budget resets on a new day; a success marks the day as done; a failure before the fourth schedules a retry five minutes later (modulo 2^32) |
| Main.MacByte | src/main.cpp:200-205 | MAC byte i is byte i of the low 48 bits of the efuse value, least significant first |
| Main.Truncated31 | src/main.cpp:207-208 | `snprintf` into 32 bytes keeps a prefix of at most 31 characters |
| Main.DeviceName | src/main.cpp:199-208 | for a DEVICE_NAME of up to 24 characters, the name is DEVICE_NAME, '-', then MAC bytes 3, 4 and 5 in that order, each as two upper-case hex digits (high nibble first) |
| Main.LowerName | src/main.cpp:211-217 | every character up to and including the first NUL goes through `tolower`; the rest of the buffer is left as it was |
| PioMain.ClampGraphic | EleksTubeHAX_pio/src/main.cpp:182-191 | a stored face index in range is kept, too large becomes the last face, too small the first |
| PioMain.NightlyCheck | EleksTubeHAX_pio/src/main.cpp:902-914 | the flag is exactly the window (03:00:06 to 03:00:59 on a new day), and opening it marks the day as handled at once |
| PioMain.Fetch | EleksTubeHAX_pio/src/main.cpp:729-736 | with the flag set, a successful query takes the offset and clears the flag; otherwise nothing changes |
| PioMain.LoopPass | EleksTubeHAX_pio/src/main.cpp:484-736 | one pass of `loop()` for the offset update: the nightly check (line 484), then the free-time fetch (lines 729-736) |
| PioMain.Passes | EleksTubeHAX_pio/src/main.cpp:216-736 | a series of loop passes, each with its moment and its query answer, in order |
| PioMain.NoRetryAfterFailure | EleksTubeHAX_pio/src/main.cpp:902-914 | a failed query at 03:00:06 leaves the flag down at 03:00:07, so a query that would succeed is never asked |
| PioMain.DayLostAfterFailure | EleksTubeHAX_pio/src/main.cpp:902-914 | after a failed first query, no later pass on the same day changes the offset |
| PioMain.PassesSameDay | EleksTubeHAX_pio/src/main.cpp:902-914 | on a day already marked as handled, no loop pass changes the offset or the day |
| PioMain.FixedNightlyCheck | EleksTubeHAX_pio/src/main.cpp:909-911 | the intended check: the flag follows the window but the day is not marked yet |
| PioMain.FixedFetch | EleksTubeHAX_pio/src/main.cpp:729-736 | the intended fetch: a success takes the offset, clears the flag and marks the day as handled |
| PioMain.FixedRetries | EleksTubeHAX_pio/src/main.cpp:734 | with the fix, a failed pass leaves the day open and a later pass in the window takes a successful query |
| PioMain.FixedOncePerDay | EleksTubeHAX_pio/src/main.cpp:904-905 | with the fix, after a success the rest of the day asks nothing |
| PioMain.DstUpdate.constructor | EleksTubeHAX_pio/src/main.cpp:50-51 | nothing pending, last day 0, the offset as given |
| PioMain.DstUpdate.UpdateDstEveryNight | EleksTubeHAX_pio/src/main.cpp:902-914 | the globals change as the as-written nightly check says |
| PioMain.DstUpdate.FreeTime | EleksTubeHAX_pio/src/main.cpp:729-736 | the globals change as the free-time fetch says |
| WifiWps.CopyWpsField | src/WiFi_WPS.cpp:23-34 | a zero-size buffer is left alone; a null source writes only the terminating NUL at the start; otherwise the buffer holds the source's C string cut to size − 1 characters, NUL-padded and always terminated |
| WifiWps.ReconnectStep | src/WiFi_WPS.cpp:201-238 | an attempt is made exactly when it is not skipped and no attempt younger than 5 s is in progress; it records the time and doubles the interval up to one minute; a skipped pass changes nothing; a stale attempt is given up |
| WifiWps.Backoff | src/WiFi_WPS.cpp:236 | the reconnect interval after k attempts in a row: doubled per attempt, capped at one minute (BackoffClosedForm gives the closed form) |
| WifiWps.BackoffClosedForm | src/WiFi_WPS.cpp:236 | after k attempts in a row the interval is the initial one times 2^k, capped at one minute |
| WifiWps.DefaultBackoff | src/WiFi_WPS.cpp:14-15 | from 15 s the interval runs 15, 30 and then 60 s for good |
| WifiWps.HardResets | src/WiFi_WPS.cpp:293-308 | how many of the first n WPS restarts do a full WiFi reset: those whose uint8_t restart count is a multiple of three |
| WifiWps.EveryThirdRestart | src/WiFi_WPS.cpp:293-308 | before the uint8_t counter wraps, every third WPS restart is a full WiFi reset |
| WifiWps.Wifi.constructor | src/WiFi_WPS.cpp:11-17 | disconnected, no attempt in progress, the retry interval at its start value, no WPS session, the stored credentials as given |
| WifiWps.Wifi.Reconnect | src/WiFi_WPS.cpp:201-238 | the link changes as ReconnectStep says, skipped while WPS runs or without stored credentials; the WPS state and the stored credentials are untouched |
| WifiWps.Wifi.OnEvent | src/WiFi_WPS.cpp:49-113 | the state each driver event sets: start marks the link down; got-IP marks it up and resets the retry interval; a disconnect marks it down and runs the reconnect step, with its warning flag; the WPS results change the state only in a WPS build during a session; the credentials, the WPS session's clocks and the restart counters never change, and the warning flag only on a disconnect |
| WifiWps.Wifi.BeginWps | src/WiFi_WPS.cpp:245-273 | the stored credentials are erased with the 0x11 marker and a session starts with its clocks at now and no restarts |
| WifiWps.Wifi.WpsTick | src/WiFi_WPS.cpp:277-316 | the session gives up exactly past its timeout; past 30 s since the last start it restarts WPS, counting restarts and full resets; the credentials are untouched |
| WifiWps.Wifi.FinishWps | src/WiFi_WPS.cpp:317-334 | a session that ended connected saves the SSID cut to the buffer, an empty password and the 0x55 marker; otherwise the stored credentials are not touched (they stay as BeginWps erased them) |
| ReportWalk.Want | src/MQTT_client_ips.cpp:306-399 | the wanted groups are the groups of the list whose test holds, and no others |
| ReportWalk.Walk | src/MQTT_client_ips.cpp:306-399 | the walk publishes only groups of the list |
| ReportWalk.WalkStep | src/MQTT_client_ips.cpp:306-320 | one group of the walk: published when its test holds, recorded on success, then the walk goes on with the rest |
| ReportWalk.WalkStopsHere | EleksTubeHAX_pio/src/MQTT_client_ips.cpp:243-251 | with the early return, a failed publish ends the walk there and its group is not recorded |
| ReportWalk.Run | EleksTubeHAX_pio/src/MQTT_client_ips.cpp:243-335 | the loop over the groups computes the walk, with or without the early return |
| ReportWalk.TailUnaffected | src/MQTT_client_ips.cpp:306-399 | when records never change later tests, recording the first group leaves the wanted groups of the rest unchanged |
| ReportWalk.WantUnaffected | src/MQTT_client_ips.cpp:306-399 | recording the first group leaves the wanted groups of any suffix unchanged |
| ReportWalk.WalkOnPublishesWanted | src/MQTT_client_ips.cpp:306-399 | without the early return, the publishes are exactly the groups wanted at the start, whatever the broker answers |
| ReportWalk.WalkStopsAtFailure | EleksTubeHAX_pio/src/MQTT_client_ips.cpp:243-335 | with the early return, the publishes are a prefix of the wanted groups; all but the last succeeded, and a short walk ends on a failure |
| ReportWalk.WalkEstablishes | src/MQTT_client_ips.cpp:306-399 | when every publish succeeds, a per-group fact that records establish holds for every group at the end |
| ReportWalk.NothingWanted | src/MQTT_client_ips.cpp:306-399 | when no test holds, no group is wanted |
| MqttClient.EndsWithCStr | src/MQTT_client_ips.cpp:1233-1242 | false for a null argument; otherwise true exactly when the string's C string ends with the suffix's (the twin at EleksTubeHAX_pio/src/MQTT_client_ips.cpp:1177-1186 is the same code) |
| MqttClient.EndsWithAppend | src/MQTT_client_ips.cpp:1233-1242 | a topic ends with its own suffix and not with a longer one; null arguments never match |
| MqttClient.Message | src/MQTT_client_ips.cpp:573-587 | the message is a prefix of the payload under 256 characters without NUL, and the whole payload when it is short and NUL-free |
| MqttClient.CopyPayload | src/MQTT_client_ips.cpp:573-587 | a fresh 256-byte buffer holds the payload, whole when under 256 bytes and cut to 255 otherwise, NUL-terminated; read as a C string it is the message |
| MqttClient.MayConnect | src/MQTT_client_ips.cpp:454 | an attempt is allowed when none was made yet or more than the wait has passed, in 32-bit millis() arithmetic |
| MqttClient.Throttle | src/MQTT_client_ips.cpp:454 | the gate waits MQTT_RECONNECT_WAIT_SEC full seconds |
| MqttClient.ThrottleWaits | src/MQTT_client_ips.cpp:454 | after an attempt, the next is allowed exactly when more than the wait in milliseconds has passed, so at least the whole wait in seconds |
| MqttClient.Cut23 | src/MQTT_client_ips.cpp:339-340 | the recorded back-light pattern is a prefix of at most 23 characters, the whole pattern when it fits |
| MqttClient.Agrees | src/MQTT_client_ips.cpp:316-397 | the LastSent* fields a group records already hold the status's values |
| MqttClient.Changed | src/MQTT_client_ips.cpp:316-389 | a group publishes when its fields differ from what was last sent; the back-light group also watches pulse, breath and rainbow |
| MqttClient.Record | src/MQTT_client_ips.cpp:316-397 | what a successful publish of a group writes to LastSent*, the pattern cut to 23 characters |
| MqttClient.RecordAgrees | src/MQTT_client_ips.cpp:316-397 | after a group is recorded it agrees with the status, and no other group's agreement changes |
| MqttClient.LaterTestsUnaffected | src/MQTT_client_ips.cpp:306-389 | recording a group never changes the publish test of a group that comes later |
| MqttClient.PowerReportHidesMainChange | src/MQTT_client_ips.cpp:306-318 | a power change alone makes the main group publish, but not once the power report (line 868) has recorded it in the shared LastSentMainPowerState |
| MqttClient.ReportIndependent | src/MQTT_client_ips.cpp:306-399 | the report's tests and records satisfy the walk's independence condition |
| MqttClient.Test | src/MQTT_client_ips.cpp:306-399 | a group is published when the report is forced or the group changed |
| MqttClient.ReportPublishesWanted | src/MQTT_client_ips.cpp:306-399 | this client's report publishes exactly the groups forced or changed at its start, whatever the broker answers |
| MqttClient.ReportStopsAtFailure | EleksTubeHAX_pio/src/MQTT_client_ips.cpp:243-335 | the early-return report publishes the changed groups in order up to the first failure |
| MqttClient.ReportSettles | src/MQTT_client_ips.cpp:306-399 | after a report whose publishes all succeed, an unforced report on the same status publishes nothing |
| MqttClient.PublishGroups | src/MQTT_client_ips.cpp:306-399 | the groups in order, publishing each forced or changed one and recording it on success, compute the walk without the early return |
| MqttClient.ChangeReport.constructor | src/MQTT_client_ips.cpp:182 | LastSentStatus starts at −1 |
| MqttClient.ChangeReport.Report | src/MQTT_client_ips.cpp:844-857 | the set point is published exactly when forced or changed, and remembered either way |
| MqttClient.SignalReport.constructor | src/MQTT_client_ips.cpp:181 | LastSentSignalLevel starts at 999 |
| MqttClient.SignalReport.Report | src/MQTT_client_ips.cpp:872-887 | the signal is published exactly when it moved by more than 2 dBm; afterwards the remembered level is within 2 dBm of the current one |
| MqttClient.DirectiveOf | src/MQTT_client_ips.cpp:599-619 | the power directive is recognised first; a set point or percentage topic only when it is not a power topic |
| MqttClient.PlainCommand | src/MQTT_client_ips.cpp:599-627 | "ON"/"OFF" on the power directive sets both displays' power and both received flags; a number on a set point sets the state; anything else changes nothing |
| MqttClient.PlainCommandIdempotent | src/MQTT_client_ips.cpp:599-627 | a directive received twice has the effect of one |
| MqttClient.HaStatus | src/MQTT_client_ips.cpp:631-659 | on the status topic, "online" sends discovery and remembers its result, "offline" clears the flag; other messages and topics change nothing |
| MqttClient.Client.constructor | src/MQTT_client_ips.cpp:84-108 | both displays on, nothing received, state 1, discovery and availability not reported, the LastSent* markers, no connect attempt yet |
| MqttClient.Client.Callback | src/MQTT_client_ips.cpp:562-659 | the commands change as the plain dispatch says on the copied message, the discovery flag as the status rule says; the report state is untouched |
| MqttClient.Client.ReportState | src/MQTT_client_ips.cpp:289-401 | when connected and the availability message is sent or not needed, the groups are walked without the early return; otherwise nothing is recorded or published |
| MqttClient.Client.ReportPowerState | src/MQTT_client_ips.cpp:859-870 | published exactly when forced or changed; the shared LastSentMainPowerState takes the new power either way |
| MqttClient.Client.Start | src/MQTT_client_ips.cpp:451-550 | an attempt exactly when the throttle allows; false only when the connect fails; the attempt time is recorded on a first start or a failed connect |
| PioMqttClient.PioPlainCommand | EleksTubeHAX_pio/src/MQTT_client_ips.cpp:541-566 | "ON"/"OFF" on the power directive sets the one power command and its flag; a number on a set point sets the state; anything else changes nothing |
| PioMqttClient.PlainCommandsAgree | EleksTubeHAX_pio/src/MQTT_client_ips.cpp:541-566 | on every message the two firmwares' plain modes agree on the main power and the state |
| PioMqttClient.PioMayConnect | EleksTubeHAX_pio/src/MQTT_client_ips.cpp:390 | the gate as written: MQTT_RECONNECT_WAIT_SEC times 100 ms |
| PioMqttClient.RetryAfterThreeSeconds | EleksTubeHAX_pio/src/MQTT_client_ips.cpp:390 | with a 30 s setting a retry 3001 ms after an attempt passes this gate but not the intended one |
| PioMqttClient.WaitIsATenth | EleksTubeHAX_pio/src/MQTT_client_ips.cpp:390 | the gate equals the intended one with a tenth of the setting |
| PioMqttClient.PublishUntilFailure | EleksTubeHAX_pio/src/MQTT_client_ips.cpp:243-335 | the groups in order, returning at the first failed publish, compute the walk with the early return |
| PioMqttClient.PioClient.constructor | EleksTubeHAX_pio/src/MQTT_client_ips.cpp:70-79 | power on, nothing received, state 1, discovery not reported, the LastSent* markers, not connected |
| PioMqttClient.PioClient.Callback | EleksTubeHAX_pio/src/MQTT_client_ips.cpp:505-600 | without Home Assistant the plain dispatch on the copied message; with it the status rule; the report state is untouched |
| PioMqttClient.PioClient.ReportState | EleksTubeHAX_pio/src/MQTT_client_ips.cpp:228-337 | when connected the groups are walked with the early return; otherwise nothing changes |
| PioMqttClient.PioClient.Start | EleksTubeHAX_pio/src/MQTT_client_ips.cpp:387-487 | an attempt exactly when the gate as written allows; the attempt time is recorded first; connected only after a successful connect |
| PioMqttClient.PioReports.constructor | EleksTubeHAX_pio/src/MQTT_client_ips.cpp:154-158 | LastSentStatus and LastSentPowerState start at −1, LastSentSignalLevel at 999 |
| PioMqttClient.PioReports.ReportStatus | EleksTubeHAX_pio/src/MQTT_client_ips.cpp:787-796 | published exactly when the state changed; remembered after |
| PioMqttClient.PioReports.ReportPowerState | EleksTubeHAX_pio/src/MQTT_client_ips.cpp:808-816 | published exactly when the power changed; remembered after |
| PioMqttClient.PioReports.ReportWiFiSignal | EleksTubeHAX_pio/src/MQTT_client_ips.cpp:818-829 | published exactly when the signal moved by more than 2 dBm; afterwards the remembered level is within 2 dBm |
| PioMqttCommands.TokenEnd | EleksTubeHAX_pio/src/Mqtt_client_ips.cpp:470-476 | the first token runs up to the first '/' or the end, and holds no '/' |
| PioMqttCommands.Tokens | EleksTubeHAX_pio/src/Mqtt_client_ips.cpp:470-476 | the tokens `strtok` finds are non-empty and hold no '/' |
| PioMqttCommands.Strtok | EleksTubeHAX_pio/src/Mqtt_client_ips.cpp:471-476 | no token exactly when the string has none; otherwise the token found and the tokens of the rest make up the string's tokens |
| PioMqttCommands.TokenEndAll | EleksTubeHAX_pio/src/Mqtt_client_ips.cpp:470-476 | a word free of '/' followed by a '/' or the end is one whole token |
| PioMqttCommands.TokensOfJoin | EleksTubeHAX_pio/src/Mqtt_client_ips.cpp:470-476 | non-empty words joined by '/' split back into the same words |
| PioMqttCommands.JoinSlash | EleksTubeHAX_pio/src/Mqtt_client_ips.cpp:470-476 | the inverse against which `strtok` is checked: tokens joined with single '/' |
| PioMqttCommands.Slots | EleksTubeHAX_pio/src/Mqtt_client_ips.cpp:470-476 | slot j holds token j while there is one and NULL after |
| PioMqttCommands.SplitCommand | EleksTubeHAX_pio/src/Mqtt_client_ips.cpp:460-481 | past the client name and its '/', the count is the number of tokens capped at tokensNumber − 1, and the slots hold the tokens in order with a NULL after the last one |
| PioMqttCommands.Take | EleksTubeHAX_pio/src/Mqtt_client_ips.cpp:518-541 | a value read sets the command and its received flag; no value leaves both |
| PioMqttCommands.Dispatch | EleksTubeHAX_pio/src/Mqtt_client_ips.cpp:518-541 | "directive/powerState" with "ON"/"OFF" sets the power; a set-point topic with a number sets the state; anything else changes nothing |
| PioMqttCommands.PercentageUnderAnyPrefix | EleksTubeHAX_pio/src/Mqtt_client_ips.cpp:533 | as written, "foo/percentage" with "12" sets the state |
| PioMqttCommands.IntendedIgnoresOtherPrefixes | EleksTubeHAX_pio/src/Mqtt_client_ips.cpp:533 | with the intended grouping, no topic outside "directive" changes the plain commands |
| PioMqttCommands.GroupingsDiffer | EleksTubeHAX_pio/src/Mqtt_client_ips.cpp:533 | the two groupings differ exactly on "percentage" under a first token other than "directive" |
| PioMqttCommands.StrOf | EleksTubeHAX_pio/src/Mqtt_client_ips.cpp:550 | a string value is read exactly when the key holds a string |
| PioMqttCommands.IntOf | EleksTubeHAX_pio/src/Mqtt_client_ips.cpp:555 | an `int` value is read only within the 32-bit range |
| PioMqttCommands.ByteOf | EleksTubeHAX_pio/src/Mqtt_client_ips.cpp:625 | a `uint8_t` value is read only from 0 to 255 |
| PioMqttCommands.IntToByte | EleksTubeHAX_pio/src/Mqtt_client_ips.cpp:555-558 | an `is<int>()` value stored in a `uint8_t` brightness: present exactly when `is<int>()` holds, kept when it is 0..255 and stored as 0 otherwise |
| PioMqttCommands.NumberOf | EleksTubeHAX_pio/src/Mqtt_client_ips.cpp:649 | a `float` value is read exactly when the key holds a number |
| PioMqttCommands.OnOf | EleksTubeHAX_pio/src/Mqtt_client_ips.cpp:550-552 | a power value is read exactly when "state" holds a string, and it is on exactly when that string is "ON" |
| PioMqttCommands.Pattern | EleksTubeHAX_pio/src/Mqtt_client_ips.cpp:585 | the back-light pattern is the effect's C string cut to 23 characters |
| PioMqttCommands.HaSet | EleksTubeHAX_pio/src/Mqtt_client_ips.cpp:544-656 | only "set" topics act; each group changes its own commands and no other; an unknown group changes nothing; brightness values that were bytes stay bytes |
| PioMqttCommands.HaSetIdempotent | EleksTubeHAX_pio/src/Mqtt_client_ips.cpp:544-656 | a set message received twice has the effect of one |
| PioMqttCommands.HaSetIgnoresWrongTypes | EleksTubeHAX_pio/src/Mqtt_client_ips.cpp:601-627 | a "state" of 300 fits neither a string nor a byte, so the pulse and twelve-hour commands stay as they were |
| PioMqttCommands.HaSetBrightnessNarrowed | EleksTubeHAX_pio/src/Mqtt_client_ips.cpp:84-85 | a brightness of 300 is received by the main and back groups but stored as 0, as the `uint8_t` commands hold it |
| PioMqttCommands.Checksum | EleksTubeHAX_pio/src/Mqtt_client_ips.cpp:728-733 | the checksum is a byte |
| PioMqttCommands.ByteSum | EleksTubeHAX_pio/src/Mqtt_client_ips.cpp:729-732 | the sum of the message's bytes, before the reduction to one byte |
| PioMqttCommands.ByteSumAppend | EleksTubeHAX_pio/src/Mqtt_client_ips.cpp:729-732 | the byte sum of two joined strings is the sum of their byte sums |
| PioMqttCommands.ChecksumSwapped | EleksTubeHAX_pio/src/Mqtt_client_ips.cpp:729-732 | the checksum ignores the order of the parts |
| PioMqttCommands.DistinctMessagesCollide | EleksTubeHAX_pio/src/Mqtt_client_ips.cpp:734-742 | "ab" and "ba" have the same checksum, so the second is never sent after the first |
| PioMqttCommands.NotificationChecksum | EleksTubeHAX_pio/src/Mqtt_client_ips.cpp:728-733 | the loop computes the byte sum modulo 256 |
| PioMqttCommands.GraphicText | EleksTubeHAX_pio/src/Mqtt_client_ips.cpp:749-750 | `%i` into three bytes gives one or two characters, a prefix of the decimal number |
| PioMqttCommands.GraphicTextRoundTrip | EleksTubeHAX_pio/src/Mqtt_client_ips.cpp:749-750 | below 100 the text reads back as the number; 123 is sent as "12" |
| PioMqttCommands.FirstReportDueAtOnce | EleksTubeHAX_pio/src/Mqtt_client_ips.cpp:62 | the initial lastTimeSent of −period makes the first periodic report due at once |
| PioMqttCommands.TokenClient.constructor | EleksTubeHAX_pio/src/Mqtt_client_ips.cpp:62-63 | power on, state 1, nothing received, checksum 0, no graphic sent, discovery not reported, lastTimeSent at −period modulo 2^32 |
| PioMqttCommands.TokenClient.Callback | EleksTubeHAX_pio/src/Mqtt_client_ips.cpp:492-657 | a topic with fewer than two tokens is ignored; otherwise the plain dispatch as written, or with Home Assistant the set messages; the report state is untouched |
| PioMqttCommands.TokenClient.ReportNotification | EleksTubeHAX_pio/src/Mqtt_client_ips.cpp:726-743 | sent exactly when the checksum differs from the last one, which is remembered |
| PioMqttCommands.TokenClient.ReportGraphic | EleksTubeHAX_pio/src/Mqtt_client_ips.cpp:745-755 | sent exactly when forced or changed, with the graphic text; the graphic is remembered |
| PioMqttCommands.TokenClient.ReportDiscovery | EleksTubeHAX_pio/src/Mqtt_client_ips.cpp:1020-1026 | discovery is sent only once, and marked as reported whatever the publishes answer |
| PioMqttCommands.TokenClient.ReportBackOnChange | EleksTubeHAX_pio/src/Mqtt_client_ips.cpp:1013-1031 | when connected, the one-time discovery; nothing when not connected |
| PioMqttCommands.TokenClient.PeriodicReportBack | EleksTubeHAX_pio/src/Mqtt_client_ips.cpp:1033-1046 | due exactly when connected and more than the period has passed; then the one-time discovery and the time of the report is recorded |

## Left out

- Files, directories and subprocesses: their answers are parameters. This covers `os.path.exists`, `csv.reader` on the partitions file (with its byte-order-mark handling), the file copies of the TFT configuration step, image decoding by PIL and the merge tool's exit status.
- Text beyond ASCII: case folding (`str.lower`, `tolower`) and the `\w` and `\b` of the TFT configuration step's pattern are modelled for ASCII only. Whitespace (`str.isspace`, `\s`) is Python's full Unicode set, line breaks included.
- TftConfig.CommentOut: the pattern is applied one line at a time, so a `\s` run that crosses a line break (`#define` at the end of one line, `HARDWARE_X` on the next) is not matched, where Python's `re.sub` with MULTILINE matches it and joins the two lines.
- Floating point: `atof`, `lround`, the rainbow duration and ArduinoJson's number types. `atof` becomes a `toNumber` parameter; numbers are `real` or whole seconds; the geolocation offset is whole seconds.
- JSON documents: parsing becomes a map of typed values. The serialisation of reports and of the Home Assistant discovery payloads is not modelled; a publish is a boolean answer.
- The network: TLS, certificates, subscriptions, the broker connection, the NTP UDP socket and the geolocation HTTP query are boolean or value parameters. Draining stale NTP packets before a request (`NTPClient::forceUpdate`) is not modelled.
- TimeLib, the display, the backlights, delays and the serial log are not modelled. TimeLib's time parts are inputs, and `nameToClockFace` and `hueToPhase` are parameters.
- RX8025T bus errors: the I2C bus always acknowledges in the model.
- Header constants (NTP intervals, the packet length, MQTT topics and wait times) are constants or parameters of the model.
- Clock.NextInterval: a shift `1 << n` with n of 32 or more is undefined in C++; the model takes the low five bits of n, as the ESP32's shift instruction does. The interval constants come from `Clock.h`, which is not part of this model; they are parameters, taken as uint32_t like `current_ntp_interval_ms`.
- `splitCommand` frees the buffer its tokens point into before they are used. The model treats the tokens as values, so that use-after-free is not modelled.
- The Home Assistant `<group>/set` JSON handling of `src/MQTT_client_ips.cpp` (lines 660-829) is not modelled. The same handling is modelled for the token-based client (`PioMqttCommands.HaSet`).
- `MQTTReportState` and `MQTTStart` of `EleksTubeHAX_pio/src/Mqtt_client_ips.cpp` are not modelled separately. Its `MQTTStart` has the same `* 100` gate as `PioMqttClient.PioMayConnect`. Its status, power and signal reports (lines 682-724) are the same code as `PioMqttClient.PioReports`.
- PioMqttCommands.NotificationChecksum: the checksum sums characters. The source sums the bytes of an Arduino `String`, which is the same for single-byte text.
- `WifiBegin`, the non-WPS WiFi build and `wpsInitConfig` are driver set-up and are not modelled.
- The LastSent* values of floating-point fields are compared as reals.

## Findings

The firmware classes model the code as written: `PioMqttClient.PioClient.Start`, `PioMain.DstUpdate`, `PioMqttCommands.TokenClient.Callback` and `Clock.NtpSync.UpdateNtpInterval`. For each row below, the corrected definition sits next to the as-written one, and the intended property is proved about it.

| source | as written | input that shows it | evidently intended | confidence | as-written member | corrected member |
|---|---|---|---|---|---|---|
| EleksTubeHAX_pio/src/MQTT_client_ips.cpp:390 | the reconnect gate waits `MQTT_RECONNECT_WAIT_SEC * 100` ms, a tenth of the setting (the same at `Mqtt_client_ips.cpp:380`) | a wait of 30 s, the last attempt at 10000 ms, now 13001 ms: a new attempt is let through after 3 s | `* 1000`, as in `src/MQTT_client_ips.cpp:454` | not executed | PioMqttClient.RetryAfterThreeSeconds | MqttClient.ThrottleWaits |
| EleksTubeHAX_pio/src/main.cpp:902-914 | the nightly check marks the day as handled when the window opens, before the geolocation query (lines 729-736) has run | the query fails at 03:00:06, and at 03:00:07 the flag is already down, so that day's offset never changes | the day is marked as handled only after a successful query, so later passes in the window retry | not executed | PioMain.NoRetryAfterFailure | PioMain.FixedRetries |
| src/Clock.cpp:441 | the back-off `ntp_interval_error_ms * (1 << (consecutive_failures - 1))` is computed in 32 bits before `min` caps it, and `consecutive_failures` keeps climbing while NTP or WiFi fails (lines 375 and 382) | with the ten-minute error interval of the comment at line 439, the 27th failure in a row gives 600000 · 2^26 = 9375 · 2^32, which wraps to 0: the interval drops to 0 and NTP is due at every call | the doubling stops at the maximum interval | not executed | Clock.BackoffCollapses | Clock.BackoffGrows |
| EleksTubeHAX_pio/src/Mqtt_client_ips.cpp:533 | `&&` binds tighter than `\|\|`, so the set-point test is `(c0 == "directive" && c1 == "setpoint") \|\| c1 == "percentage"` | topic `<client>/foo/percentage` with payload "12" sets the state | both set-point topics only under "directive" | not executed | PioMqttCommands.PercentageUnderAnyPrefix | PioMqttCommands.IntendedIgnoresOtherPrefixes |
