# Verified models of the RNode firmware's algorithmic cores

This directory holds Dafny models of the parts of the firmware (and of the Python host module) whose
correctness is a matter of arithmetic, of state kept over many calls, or of interleaving, and proofs
about them. `dafny verify dfyconfig.toml` checks everything.

Each source file that works by updating state in place is modelled by a class or a method with the same
fields, loops and branches, proved against a function or relation on values; the properties are then
proved of those values, over every input, every run or every interleaving. Where a property only compares one
function of the model with another, a second statement fixes the codes, bit orders, byte orders and times
themselves, as numbers: `RunRendered`, `LengthIsNumber` and `DigestOfAbc`, `SearchGivenUp`, `Clamp16` and `Impulse`,
`HidTyping`, `FrameAround`, `FragmentsAre`, `Registers`, `TextOf`.

| module | models |
|---|---|
| `Calendar` | the two closed forms between day numbers and civil dates, against a calendar that counts one day at a time |
| `Rtc` | the DS3231 driver: unix time to seven BCD registers and back |
| `Rfc1321`, `Rfc1321Answer`, `Md5` | RFC 1321 section 3 written from the document, one of its known answers, and the incremental implementation with 32-bit or 64-bit `unsigned long` |
| `EspNow`, `EspNowDelivery`, `EspNowSystem` | the radio transport's state; what reassembly delivers for any frames; the whole link as a step system |
| `RegionCache`, `RegionDisplay` | the colour displays' region cache as values, and `drawBitmap` and `colour_mark_dirty` over the display's own state |
| `Resampler` | the polyphase 4x upsampler over exact reals, against the plain FIR over the zero-stuffed signal |
| `Kiss` | the two KISS encoders and the host's stream decoder |
| `GnssDuty` | the duty-cycled GNSS receiver: phases, gating pins, timers, predictor |
| `Discovery`, `KeyRing`, `HidReport`, `HidTyping` | the Bluetooth keyboard host: least-recently-seen table, lock-free ring, report translation, and what each key types |
| `Base32` | the text form of identity keys (RFC 4648 section 6) |
| `BleFifo` | the overwrite-oldest byte ring |
| `Common` | bytes, options, division |

## What was found

Most promises hold as they stand. These hold only under a condition; each condition is proved exact,
and where it does not itself name a failing input a lemma exhibits one:

- **Region cache.** A push retires every queued colour rectangle that meets the pushed region, even if the
  rectangle also meets another cached region that has not been repainted. The cache stays true to every panel
  it was true to if and only if no pixel of another slot loses its last queued rectangle that way
  (`RegionCache.FoldExact`). Two adjacent regions and one queued rectangle over both are enough: in
  `RegionCache.StaleRegion`, a run of five operations from the empty cache, the second region keeps its old
  colours through its own push. With nothing queued there is no condition
  (`RegionCache.NoDirtyNothingForgotten`).
  Bits beyond the bitmap's width never affect what the panel shows; they can only make the window sent larger
  than the least one.
- **ESP-NOW reassembly.** A packet whose frames all arrive is delivered intact exactly when it has 1 to 508
  bytes and no partial packet under the same tag is pending (`EspNowDelivery.PacketIntact`). The tag has only
  four random bits, so a stale partial packet of the same tag can occur after a loss
  (`EspNowDelivery.LostLastSpoils`).
- **ESP-NOW losses.** Of a packet of which some frames are lost nothing is delivered exactly when the last frame
  is lost, and the packet itself exactly when none is: a wrong payload is passed on exactly when the last frame
  is heard and an earlier one is not (`EspNowDelivery.LossOutcome`; `EspNowSystem.LossTruncates` is the smallest
  case).
- **RTC.** Setting and reading the clock is exact if and only if the time is in 2000 or later
  (`Rtc.RoundTrip`); an earlier year comes back 96 years late (`Rtc.YearRegister`).
- **Calendar.** The first addition of the closed form overflows `int32_t` for the topmost 719468 day numbers
  and only for those (`Calendar.NoSignedOverflow`).
- **KISS, reports that end the host's loop.** The firmware's statistics reports (`Utilities.h:1876-1902`) carry
  four bytes; at the fourth the host applies `ord()` to an int (`RNode.py:455` and `469`), and the exception ends
  `readLoop`. An error report (`Utilities.h:1846-1851`) ends it at once, because the name `RNS` is not defined
  there. Of any stream of data and command frames exactly the payloads before the first such frame are delivered
  (`Kiss.StreamRoundTrip`, `Kiss.StreamComplete`); `Kiss.ReportSilencesHost` shows one report silencing the host.
- **KISS, escape flag and timeout.** The host's escape flag survives the end of a frame. If it is left set, the
  next data frame is delivered wrongly exactly when its payload starts with an unescaped TFEND or TFESC byte
  (`Kiss.LeftoverEscape`, `Kiss.EscapeSurvives`, `Kiss.EscapeSurvivesCommand`). The idle timeout does not reset a
  data frame that stalled before its first payload byte; from which states the next data frame survives is
  `Kiss.Resynchronises`, and `Kiss.StalledOpening` is such a stall.
- **GNSS.** The comment at `GNSS.h:479` says the long timeout applies to the first search since enabling. The
  lock counter is eight bits wide, so it applies whenever the number of fixes since then is a multiple of 256
  (`GnssDuty.InitialTimeoutExactly`, and `GnssDuty.LongTimeoutReturns` for a run of 256 fixes).
- **Base32.** The decoder ignores three bits of the character at index 102; accepted texts are encodings
  exactly when those bits are clear (`Base32.CanonicalExactly`), and every key has accepted texts that are not
  its encoding (`Base32.StrayBitsAccepted`).
- **Discovery.** The table is compared by raw readings of the millisecond clock. The entry given up is one seen
  longest ago, and the table stays right, exactly when no device held was seen in an earlier turn of the clock than
  that entry's; for devices seen within 2^32 ms of each other that is when all were seen in one turn
  (`Discovery.VictimOldest`, `Discovery.SightingExact`). `Discovery.WrapEvictsNewest` is a wrap that drops the
  device seen last.
- **Keyboard.** After a rollover report, in which the keyboard does not say what is down, every key still held
  counts as pressed again. A key queues one character for each press exactly when it is never held across such a
  report (`HidReport.PushesArePresses`, `HidReport.HeldKeyQueuedTwice`).

## Model

| member | source | states |
|---|---|---|
| Calendar.CivilFromDaysValid | RNode_Firmware/RTC.h:50-61 | every day number, negative ones included, gives a real Gregorian date |
| Calendar.DaysOfCivil | RNode_Firmware/RTC.h:41-61 | day number to date and back is the identity, over all day numbers |
| Calendar.CivilOfDays | RNode_Firmware/RTC.h:41-61 | date to day number and back is the identity, over all proleptic Gregorian dates |
| Calendar.DaysOfNext | RNode_Firmware/GNSS.h:122-130 | the calendar's next day has the next day number |
| Calendar.CivilSuccessor | RNode_Firmware/GNSS.h:131-142 | day z + 1 is the leap-year-rule successor of day z |
| Calendar.EpochIsDayZero | RNode_Firmware/GNSS.h:122-142 | day 0 is 1970-01-01 in both directions |
| Calendar.CivilRefinesCounting | RNode_Firmware/GNSS.h:122-142 | the closed form equals counting days one at a time, from any day |
| Calendar.NoSignedOverflow | RNode_Firmware/RTC.h:50-61 | for which 32-bit day numbers the signed intermediates do not overflow, exactly |
| Rtc.Ds3231.SetUnixTime | RNode_Firmware/RTC.h:140-172 | the seven registers after a set, and when they are left alone |
| Rtc.Ds3231.GetUnixTime | RNode_Firmware/RTC.h:81-115 | what is read from any register contents, and 0 when the chip does not answer |
| Rtc.BcdRoundTrip | RNode_Firmware/RTC.h:34-35 | BCD of 0 to 99 is the two decimal digits, and comes back |
| Rtc.TwelveHourMode | RNode_Firmware/RTC.h:100-106 | the chip's 12-hour encoding of every hour reads back as the 24-hour one |
| Rtc.YearRegister | RNode_Firmware/RTC.h:153-169 | which two-digit year a reader gets for every year the driver can write |
| Rtc.Registers | RNode_Firmware/RTC.h:140-172 | which register holds what: seconds, minutes, hours, day, month with the century bit and year, as two decimal digits each |
| Rtc.UnusedBits | RNode_Firmware/RTC.h:93-112 | registers that differ only in the weekday and in bits without meaning are read alike |
| Rtc.DecodeOfEncode | RNode_Firmware/RTC.h:81-172 | what a set clock reads back, for every 32-bit time |
| Rtc.RoundTrip | RNode_Firmware/RTC.h:81-172 | set then get returns the same time if and only if it is 2000-01-01 or later |
| Rtc.WeekdayCycles | RNode_Firmware/RTC.h:156-160 | the stored weekday starts at Thursday for 1970-01-01 and moves one step round the week each day |
| Rfc1321.ProcessAppend | RNode_Firmware/MD5.cpp:72-180 | section 3.4 of RFC 1321: processing blocks one group after another is processing them all |
| Rfc1321.PadRest | RNode_Firmware/MD5.cpp:233-261 | sections 3.1 and 3.2 of RFC 1321: padding touches only the part of a message after its whole blocks |
| Rfc1321.LengthIsNumber | RNode_Firmware/MD5.cpp:253-261 | the eight length bytes, taken as a number with the low byte first, are the bit count modulo 2^64 |
| Rfc1321.LengthIsDigits | RNode_Firmware/MD5.cpp:253-261 | each of the eight bytes is its digit of the bit count to the base 256 |
| Rfc1321Answer.DigestOfAbc | RNode_Firmware/MD5.cpp:72-283 | section A.5 of RFC 1321: the digest of "abc" is 90 01 50 98 3c d2 4f b0 d6 96 3f 7d 28 e1 7f 72, through all 64 operations |
| Md5.LowE | RNode_Firmware/MD5.cpp:31 | the shortened E equals F of RFC 1321 on the low 32 bits, whatever is above them |
| Md5.LowG | RNode_Firmware/MD5.cpp:32 | the shortened G equals G of RFC 1321 on the low 32 bits |
| Md5.LowStep | RNode_Firmware/MD5.cpp:39-42 | STEP computes the document's operation on the low halves, for any garbage in the high ones |
| Md5.Rows1 | RNode_Firmware/MD5.cpp:95-110 | word, constant and shift of operations 1 to 16 are those of the document |
| Md5.Rows2 | RNode_Firmware/MD5.cpp:113-128 | the same for operations 17 to 32 |
| Md5.Rows3 | RNode_Firmware/MD5.cpp:131-146 | the same for operations 33 to 48 |
| Md5.Rows4 | RNode_Firmware/MD5.cpp:149-164 | the same for operations 49 to 64 |
| Md5.Context.Body | RNode_Firmware/MD5.cpp:72-180 | one or more whole blocks take the registers where RFC 1321 takes them |
| Md5.CountStep | RNode_Firmware/MD5.cpp:204-207 | the carry test on the 29-bit counter is right: hi * 2^29 + lo counts the bytes |
| Md5.WrapKeepsLow | RNode_Firmware/MD5.h:30 | wrap-around at either width of unsigned long keeps the bits the counters use |
| Md5.Context.AddLength | RNode_Firmware/MD5.cpp:203-207 | the two counter words after an update |
| Md5.Context.Update | RNode_Firmware/MD5.cpp:197-231 | feeding more data to a context that holds a message makes it hold the longer message |
| Md5.CountBytes | RNode_Firmware/MD5.cpp:253-261 | the eight length bytes written from the two counters are those of RFC 1321 for the bytes counted (what these are as a number: Rfc1321.LengthIsNumber) |
| Md5.Context.Finish | RNode_Firmware/MD5.cpp:233-263 | both padding cases process exactly the padded message |
| Md5.Context.Final | RNode_Firmware/MD5.cpp:233-283 | the digest of the message fed so far, and a cleared context |
| Md5.HashPieces | RNode_Firmware/MD5.cpp:182-283 | however a message is cut into updates the result is its RFC 1321 digest, on both widths |
| Md5.MakeHash | RNode_Firmware/MD5.cpp:284-301 | make_hash is the RFC 1321 digest |
| EspNow.Radio.SendChunk | RNode_Firmware/ESPNOW.h:330-336 | a chunk joins the end of the queue, or is refused when the queue is full or the radio is not ready |
| EspNow.Radio.Send | RNode_Firmware/ESPNOW.h:368-398 | the queue receives the packet's frames in order as far as they fit, and the result says whether all did |
| EspNow.Radio.UpdateTx | RNode_Firmware/ESPNOW.h:344-358 | at most one frame in flight: the queue's first frame goes to the driver only when none is |
| EspNow.Radio.OnFrame | RNode_Firmware/ESPNOW.h:263-311 | the receive buffer, length and tag after any frame, and the payload delivered if any |
| EspNow.FragmentsAre | RNode_Firmware/ESPNOW.h:376-396 | frame k carries the packet's bytes from 249 k on behind the tag, plus one in all frames but the last |
| EspNow.HeaderBits | RNode_Firmware/ESPNOW.h:279-281 | the tag of a header byte is its high nibble, and bit 0 says that more frames follow |
| EspNowDelivery.FragmentsRun | RNode_Firmware/ESPNOW.h:376-396 | a packet's frames carry one tag, all but the last MORE, carry the packet's bytes, and fit the radio |
| EspNowDelivery.DeliveredRuns | RNode_Firmware/ESPNOW.h:277-311 | for arbitrary frames every delivered payload is a contiguous run of payload-carrying frames of one tag, and at most 508 bytes are held |
| EspNowDelivery.RecvUseful | RNode_Firmware/ESPNOW.h:277 | frames of at most one byte change nothing |
| EspNowDelivery.RunDelivered | RNode_Firmware/ESPNOW.h:277-311 | a complete run is delivered once and whole, whatever came before, unless a partial packet of the same tag is pending |
| EspNowDelivery.Conserved | RNode_Firmware/ESPNOW.h:277-311 | the receiver delivers and holds no more bytes than arrived |
| EspNowDelivery.StaleSpoils | RNode_Firmware/ESPNOW.h:285-299 | after a pending part of the same tag a single delivery is that part joined to the packet, or is shorter than the packet |
| EspNowDelivery.PacketIntact | RNode_Firmware/ESPNOW.h:263-398 | a packet is delivered intact and alone exactly when it has 1 to 508 bytes and nothing of its tag is pending |
| EspNowDelivery.LostLastSpoils | RNode_Firmware/ESPNOW.h:277-311 | after a packet whose last frame was lost, the next packet under the same tag is not delivered intact |
| EspNowDelivery.LossOutcome | RNode_Firmware/ESPNOW.h:277-311 | what a packet delivers for every set of lost frames: nothing exactly when the last is lost, the packet exactly when none is, otherwise the joined bytes of the frames heard |
| EspNowSystem.InvAlways | RNode_Firmware/ESPNOW.h:319-358 | over every history: accepted chunks are those handed to the driver followed by the queue, at most 12 wait, at most one is in flight |
| EspNowSystem.AllDelivered | RNode_Firmware/ESPNOW.h:263-398 | the frames of any packets, under any tags, reassemble to exactly those packets in order |
| EspNowSystem.PoliteLeaves | RNode_Firmware/ESPNOW.h:277-311 | short frames at any time, and whole foreign packets between packets, leave the receiver as it was |
| EspNowSystem.InOrderAlways | RNode_Firmware/ESPNOW.h:319-398 | without refusal or loss, this sender's frames heard, in the air and queued are those of the packets sent, in order, and the receiver is as if it had heard no others |
| EspNowSystem.EndToEnd | RNode_Firmware/ESPNOW.h:263-398 | under any interleaving without refusal or loss, with other senders heard between packets, this sender's deliveries are at every moment a prefix of the packets sent, and all of them once the link is idle; everything else delivered is the others' |
| EspNowSystem.LossTruncates | RNode_Firmware/ESPNOW.h:263-311 | the smallest wrong delivery: the first of two frames is lost and the second part is delivered alone |
| RegionCache.RegionRight | RNode_Firmware/Display.h:1400-1593 | after a cached push the whole region shows what a full uncached push would, and nothing else changed |
| RegionCache.ConsistentAfter | RNode_Firmware/Display.h:1421-1495 | slots in use stay disjoint and true to the panel, if no other slot's pending colour change is forgotten |
| RegionCache.MaskedStep | RNode_Firmware/Display.h:1421-1495 | a cached push that hits no slot painted over is the same push on the cache without those slots |
| RegionCache.ForgettingBreaks | RNode_Firmware/Display.h:1474-1493 | a forgotten pixel leaves some panel, consistent before, wrong after |
| RegionCache.FoldExact | RNode_Firmware/Display.h:1474-1493 | the cache stays true to every panel it was true to exactly when nothing is forgotten |
| RegionCache.ForgettingHappens | RNode_Firmware/Display.h:1474-1493 | in any colours, a consistent cache and a push that forgets a pixel of another region |
| RegionCache.StaleRegion | RNode_Firmware/Display.h:1419-1495 | a run from the empty cache in which only the push that retires a mark over two regions breaks the discipline, and after which the other region is pushed, finds nothing to send and stays in the old colours |
| RegionCache.NoDirtyNothingForgotten | RNode_Firmware/Display.h:1421-1495 | with no colour change queued any cached push is safe |
| RegionCache.MarkCovers | RNode_Firmware/Display.h:1131-1147 | marking loses no coverage, also when the queue is full and its last rectangle is widened |
| RegionCache.HullLeast | RNode_Firmware/Display.h:1139-1145 | the widened rectangle is the least one that holds both |
| RegionCache.MarkAllCovers | RNode_Firmware/Display.h:1131-1147 | after any number of marks everything marked or queued before is covered |
| RegionCache.RunConsistent | RNode_Firmware/Display.h:1113-1147 | over every run of cached pushes, recolourings marked where they change a cached region, uncached pushes anywhere and drops, the slots not painted over are disjoint and true to the panel |
| RegionCache.RunRight | RNode_Firmware/Display.h:1400-1593 | in every such run in which no cached push hits a slot painted over, each cached push leaves its region as a full re-render in the present colours, and the rest alone |
| RegionCache.LitFromLeft | RNode_Firmware/Display.h:1584 | pixel b of a byte, from the left, is lit exactly when the byte shifted left b times is at least 0x80 |
| RegionCache.ShowsRendered | RNode_Firmware/Display.h:1584 | what a picture shows at row and column is the bit so numbered of byte row * stride + column / 8, in foreground or background |
| RegionCache.DrawPainted | RNode_Firmware/Display.h:1400-1593 | after a cached push every row and column of the bitmap is painted so on the panel |
| RegionCache.RunRendered | RNode_Firmware/Display.h:1400-1593 | RunRight, pixel by pixel: in every allowed run each cached push leaves every row and column of its bitmap painted so, at rows of (w + 7) / 8 bytes |
| RegionDisplay.DiffByte | RNode_Firmware/Display.h:1461-1466 | the columns found in one changed byte bound its changed bits, tightly |
| RegionDisplay.Display.Diff | RNode_Firmware/Display.h:1452-1471 | the box bounds all changed bits, each side touched by one, and the back buffer becomes the bitmap |
| RegionDisplay.Display.MarkDirty | RNode_Firmware/Display.h:1131-1147 | colour_mark_dirty over 16-bit rectangles queues or widens as specified |
| RegionDisplay.Display.constructor | RNode_Firmware/Display.h:1113-1130 | the empty cache and queue that the firmware starts from, true to the panel in any colours |
| RegionDisplay.FoldedLeast | RNode_Firmware/Display.h:1479-1488 | folding gives the least box that holds the old box and the queued part inside the region |
| RegionDisplay.Display.FoldDirty | RNode_Firmware/Display.h:1474-1493 | the loop ends, the box covers every queued part of the region, and the rectangles kept are those that do not meet it |
| RegionDisplay.Display.Push | RNode_Firmware/Display.h:1496-1592 | exactly the window's pixels are rewritten, each to what a full push shows, past packing and byte swapping |
| RegionDisplay.SwapIs | RNode_Firmware/Display.h:1585 | a colour's two bytes change places |
| RegionDisplay.Display.FindSlot | RNode_Firmware/Display.h:1421-1430 | the slot found is the first with the same rectangle, foreground and background |
| RegionDisplay.Display.Install | RNode_Firmware/Display.h:1434-1450 | a miss invalidates the slots the region overlaps and takes over the next slot in turn |
| RegionDisplay.WindowRight | RNode_Firmware/Display.h:1432-1495 | the window sent lies in the region and holds every pixel that must be sent |
| RegionDisplay.WindowLeast | RNode_Firmware/Display.h:1452-1495 | on a hit, if the pad bits agree, no smaller rectangle holds every pixel that must be sent |
| RegionDisplay.CachedFits | RNode_Firmware/Display.h:1406 | a bitmap small enough for the cache fits a push buffer of eight pixels for each cached byte |
| RegionDisplay.Display.DrawCached | RNode_Firmware/Display.h:1419-1592 | one cached push is a step of the cache theory, through the least window on a hit |
| RegionDisplay.Display.DrawBitmap | RNode_Firmware/Display.h:1400-1593 | cacheable bitmaps take a step of the cache theory, others are pushed whole and leave cache and queue alone; on a consistent cache every row and column of the bitmap is painted on the panel by its own bit, the left-most first |
| Resampler.PhasesPartition | RNode_Firmware/Audio.cpp:133-143 | every tap is in exactly one phase, at exactly one position |
| Resampler.PhaseIsFir | RNode_Firmware/Audio.cpp:168-182 | the terms of the filter that meet a sample are the phase's terms, one by one |
| Resampler.PolyphaseIsFir | RNode_Firmware/Audio.cpp:168-182 | for every input length and output position, edges included, the phase sum is the 33-tap FIR over the zero-stuffed signal |
| Resampler.Clamp16 | RNode_Firmware/Audio.cpp:147-151 | limits at both ends, and between them the fraction is cut off toward zero |
| Resampler.Impulse | RNode_Firmware/Audio.cpp:168-182 | a single sample at position k comes out as its multiples of the 33 taps, the last tap first, the middle one at output 4 k |
| Resampler.Filter.constructor | RNode_Firmware/Audio.cpp:114-144 | the decomposition loop fills all four phases |
| Resampler.Filter.Upsample | RNode_Firmware/Audio.cpp:168-182 | every output sample is four times the full filter, clamped |
| Kiss.EscapeIsStuffing | Python Module/RNode.py:72-75 | the host's two replacement passes equal byte-by-byte stuffing as in RFC 1055 |
| Kiss.WriteFrame | RNode_Firmware/ESPNOW.h:581-594 | the buffer holds the frame of the payload, and a payload of at most 508 bytes is never cut |
| Kiss.FrameAround | RNode_Firmware/ESPNOW.h:581-594 | where any byte of a payload stands in its frame, and as which bytes: C0 as DB DC, DB as DB DD, any other as itself, between C0 00 and C0 |
| Kiss.FrameEnds | RNode_Firmware/ESPNOW.h:581-594 | a frame has END at both ends and nowhere else |
| Kiss.ReadLoop | Python Module/RNode.py:358-490 | of any stream of data and command frames the loop delivers each payload's first 500 bytes, in order, up to the first frame that ends it, and says whether it still runs |
| Kiss.DecodeDataFrame | Python Module/RNode.py:368-395 | a data frame delivers the first 500 bytes of its payload, from any state between frames |
| Kiss.DecodeCommandFrame | Python Module/RNode.py:396-490 | a command frame delivers no packet; the loop survives it, and is then between frames, exactly when it is no error report with a value and no statistics report of four bytes or more |
| Kiss.FrequencyReport | Python Module/RNode.py:402-416 | the value is the four bytes taken high byte first, escaped or not; nothing else reported changes |
| Kiss.BandwidthReport | Python Module/RNode.py:418-432 | the same for the bandwidth |
| Kiss.StreamRoundTrip | Python Module/RNode.py:358-490 | any concatenation of data and command frames delivers exactly the payloads before the first frame that ends the loop, 500 bytes of each, once and in order; the loop survives exactly when there is no such frame |
| Kiss.StreamComplete | Python Module/RNode.py:358-490 | all payloads arrive exactly when no data frame follows a frame that ends the loop |
| Kiss.ReportSilencesHost | Python Module/RNode.py:443-455 | a statistics report as the firmware sends it ends the loop, and the data frame after it is not delivered |
| Kiss.LeftoverEscape | Python Module/RNode.py:368-395 | with no data frame open, exactly when an escape flag left over spoils the next data frame |
| Kiss.EscapeSurvives | Python Module/RNode.py:384-395 | an ESC right before END leaves the flag set |
| Kiss.EscapeSurvivesCommand | Python Module/RNode.py:396-411 | the same in a command frame, after which the decoder is still in a frame |
| Kiss.OpenFrameSwallows | Python Module/RNode.py:372-376 | an open data frame takes the next frame's first END for its own |
| Kiss.Resynchronises | Python Module/RNode.py:487-494 | from which states, exactly, the data frame after an idle timeout is delivered whole |
| Kiss.StalledOpening | Python Module/RNode.py:487-494 | a stall right after a data frame's command byte is not reset, and the next payload is lost |
| GnssDuty.Gnss.PinsWake | RNode_Firmware/GNSS.h:317-325 | after it the receiver is not gated off, on any board |
| GnssDuty.Gnss.PinsSleep | RNode_Firmware/GNSS.h:301-338 | after it the receiver is gated off on every board with a gating pin: by hard sleep when that is all the board has or the interval is 900 seconds or more, else by soft sleep |
| GnssDuty.Gnss.Enable | RNode_Firmware/GNSS.h:344-387 | a board with a gating pin is gated off exactly when switched off; switching on starts a search with the long timeout |
| GnssDuty.Gnss.Schedule | RNode_Firmware/GNSS.h:434-447 | the whole state after scheduling a sleep |
| GnssDuty.Gnss.Update | RNode_Firmware/GNSS.h:457-506 | the whole state after a poll, in every phase |
| GnssDuty.InvAlways | RNode_Firmware/GNSS.h:301-506 | over every run: gated off exactly in SLEEP while enabled, and the predictor unset or between the least and greatest lock time since reset |
| GnssDuty.SleepBound | RNode_Firmware/GNSS.h:439-446 | no sleep exceeds the interval, nor five minutes after a failure |
| GnssDuty.DueIs | RNode_Firmware/GNSS.h:499-504 | the 32-bit wake test tells before from after across wrap-around within 2^31 ms |
| GnssDuty.WakesWhenDue | RNode_Firmware/GNSS.h:499-505 | a sleeping receiver is woken by a poll exactly when its true due time has come |
| GnssDuty.HoldsTenSeconds | RNode_Firmware/GNSS.h:495-498 | a receiver with a fix is put to sleep by the first poll ten seconds later, not before |
| GnssDuty.SearchGivenUp | RNode_Firmware/GNSS.h:478-493 | a poll without a fix ends the search exactly when at least 180000, 90000 or 45000 ms of true time (modulo 2^32) have passed since it began: the first when the fixes since reset are a multiple of 256, else the second when the failed searches since the last fix are, else the third; otherwise it changes nothing |
| GnssDuty.SleepAfterSearch | RNode_Firmware/GNSS.h:439-446 | after a failed search the next wake is due after the interval or 300000 ms, whichever is less |
| GnssDuty.SleepAfterHold | RNode_Firmware/GNSS.h:439-446 | after a fix the next wake is due one interval later, less the predicted time to lock |
| GnssDuty.FixLocks | RNode_Firmware/GNSS.h:466-477 | a fix during a search starts the hold and is timed; a fix that brings the 8-bit count to 2 or more is the first prediction, or moves it |
| GnssDuty.SmoothIs | RNode_Firmware/GNSS.h:471-473 | the prediction moves to four fifths of itself plus one fifth of the new lock time, rounded down |
| GnssDuty.KeptOn | RNode_Firmware/GNSS.h:457-462 | without an interval or a gating pin a poll leaves the receiver searching and not gated off |
| GnssDuty.InitialTimeoutExactly | RNode_Firmware/GNSS.h:478-489 | the long timeout applies exactly when the fixes since reset are a multiple of 256 |
| GnssDuty.LongTimeoutReturns | RNode_Firmware/GNSS.h:463-489 | a run of 256 fixes with GNSS on all the while, after which the long timeout applies again |
| Discovery.Discovered.Upsert | RNode_Firmware/BLEKeyboardHost.h:118-143 | exactly one entry changes: the device's own, else the first free, else the first with the least clock reading; it gets the address, strength and time, and a name of at most 31 characters, which stays once it is not empty |
| Discovery.Discovered.Clear | RNode_Firmware/BLEKeyboardHost.h:114-116 | no entry is in use, and the rest of each is kept |
| Discovery.VictimOldest | RNode_Firmware/BLEKeyboardHost.h:130-135 | the entry given up is one seen longest ago exactly when no device held was seen in an earlier turn of the clock than its own; within 2^32 ms, exactly when all were seen in one turn |
| Discovery.SightingStep | RNode_Firmware/BLEKeyboardHost.h:118-143 | one sighting keeps the table right, if an eviction takes an entry of the earliest turn of the clock held |
| Discovery.SightingExact | RNode_Firmware/BLEKeyboardHost.h:118-143 | an eviction keeps the table right exactly in that case; for devices seen within 2^32 ms of each other, exactly when all were seen in one turn |
| Discovery.RunMostRecent | RNode_Firmware/BLEKeyboardHost.h:114-143 | after any sightings since the last clear, at any clock readings and across wraps as long as each eviction sees one turn, the table holds each device once, with its last reading, and none left out was seen later than one held |
| Discovery.RunLatest | RNode_Firmware/BLEKeyboardHost.h:114-143 | over any run, whatever the clock does, each entry in use has the clock reading and the signal strength of its device's last sighting |
| Discovery.OneTurnRun | RNode_Firmware/BLEKeyboardHost.h:114-143 | in particular whenever all sightings fall in one turn of the clock |
| Discovery.ExactlyMostRecent | RNode_Firmware/BLEKeyboardHost.h:114-143 | if no two sightings share a millisecond it holds exactly the eight most recently seen devices, or all |
| Discovery.WrapEvictsNewest | RNode_Firmware/BLEKeyboardHost.h:130-135 | a full table whose device seen last, just after a wrap, is the one dropped |
| KeyRing.PublishAppends | RNode_Firmware/BLEKeyboardHost.h:483-488 | moving head adds the stored character at the end |
| KeyRing.AdvanceTakesFirst | RNode_Firmware/BLEKeyboardHost.h:1060-1064 | moving tail takes the oldest character |
| KeyRing.KeyQueue.Push | RNode_Firmware/BLEKeyboardHost.h:483-488 | appends, or drops when fifteen wait; equals the producer's accesses run in turn |
| KeyRing.KeyQueue.Drain | RNode_Firmware/BLEKeyboardHost.h:1060-1064 | hands on everything waiting, in order, and empties the ring |
| KeyRing.InvAlways | RNode_Firmware/BLEKeyboardHost.h:483-488 | the ring's invariant at every interleaving of single accesses |
| KeyRing.DispatchedInOrder | RNode_Firmware/BLEKeyboardHost.h:1060-1064 | at every moment the dispatched characters are a prefix of the accepted ones, at most fifteen wait, and no press is unaccounted for |
| KeyRing.SlotsSafe | RNode_Firmware/BLEKeyboardHost.h:1060-1064 | no slot is read before it is written nor overwritten before it is read |
| KeyRing.DropOnlyWhenFull | RNode_Firmware/BLEKeyboardHost.h:484-485 | a character is dropped only when fifteen are waiting |
| HidReport.LettersMapped | RNode_Firmware/BLEKeyboardHost.h:225-340 | every letter key has a character in all four tables |
| HidReport.Keyboard.PressKey | RNode_Firmware/BLEKeyboardHost.h:510-606 | the effect of one fresh keycode, branch by branch |
| HidReport.Keyboard.TranslateReport | RNode_Firmware/BLEKeyboardHost.h:495-639 | the whole keyboard state after a report of any length |
| HidReport.SlotsCount | RNode_Firmware/BLEKeyboardHost.h:501-607 | each slot with a fresh mapped key queues one character for it, even if Caps Lock toggles on the way |
| HidReport.SlotsChars | RNode_Firmware/BLEKeyboardHost.h:568-606 | every character queued is that of the key in its slot, in the case that Shift and Caps Lock give it there, Caps Lock presses of the same report included |
| HidReport.OnePushPerPress | RNode_Firmware/BLEKeyboardHost.h:495-639 | over any run a key queues exactly one character for each time it goes down while mapped |
| HidReport.PushesArePresses | RNode_Firmware/BLEKeyboardHost.h:501-508 | a key queues one character for each press exactly when it is never held across a rollover report, otherwise more |
| HidReport.HeldKeyQueuedTwice | RNode_Firmware/BLEKeyboardHost.h:501-508 | a key held across one rollover report is pressed once and queued twice |
| HidReport.RiseIsEdge | RNode_Firmware/BLEKeyboardHost.h:501-508 | with distinct keycodes, going down is a rising edge against the report before |
| HidReport.HeldIsDown | RNode_Firmware/BLEKeyboardHost.h:609-616 | over any run a key set to repeat is down in the last report accepted |
| HidReport.CapsIsParity | RNode_Firmware/BLEKeyboardHost.h:568-570 | over any run Caps Lock is the parity of its presses since the connection last opened or closed |
| HidTyping.Modifiers | RNode_Firmware/BLEKeyboardHost.h:387-390 | which bits of the modifier byte are Ctrl, Shift, Alt and GUI, left and right |
| HidTyping.LetterTables | RNode_Firmware/BLEKeyboardHost.h:225-340 | every letter in all four tables: the Latin alphabet in order, and the Russian letter of the key by its place in the alphabet |
| HidTyping.CharacterKey | RNode_Firmware/BLEKeyboardHost.h:225-340 | every other entry: digits, signs, Enter and space, in both layouts and with Shift, and which keys have none |
| HidTyping.KeyTypes | RNode_Firmware/BLEKeyboardHost.h:510-606 | what every key types under any modifiers, Caps Lock and layout, with all codes written out, and which keys repeat |
| HidTyping.ReportTypes | RNode_Firmware/BLEKeyboardHost.h:495-639 | all that a report queues: in slot order what each key not down before types, then the modifier combinations |
| HidTyping.OneKeyTypes | RNode_Firmware/BLEKeyboardHost.h:495-639 | one key newly down, from any state: its character, Caps Lock, and the character held for repeating |
| HidTyping.LetterCase | RNode_Firmware/BLEKeyboardHost.h:590-596 | an English letter is queued small when Shift and Caps Lock agree and as a capital when they differ |
| HidTyping.CapsOnlyLetters | RNode_Firmware/BLEKeyboardHost.h:586-596 | Caps Lock changes no key but the letters |
| HidTyping.ModifiersAlone | RNode_Firmware/BLEKeyboardHost.h:618-636 | GUI newly down with no key queues 0x14, Alt+Shift or Ctrl+Shift newly down queues 0x15, from any state |
| HidTyping.HeldStays | RNode_Firmware/BLEKeyboardHost.h:609-616 | a held key keeps its character through every report in which it is still down and nothing new goes down, and stops with the first without it |
| Base32.AlphabetRoundTrip | RNode_Firmware/IdentityTransfer.h:46-102 | digit to character and back, and no other character is accepted |
| Base32.CharIs | RNode_Firmware/IdentityTransfer.h:47 | the alphabet, letter by letter |
| Base32.TextOf | RNode_Firmware/IdentityTransfer.h:46-68 | sections 3 and 6 of RFC 4648: each character of the text of a key of any length is the letter for the next five bits, high bit first, or padding where no bits are left |
| Base32.TextLength | RNode_Firmware/IdentityTransfer.h:46-68 | eight characters for every five bytes begun |
| Base32.KeyToBase32 | RNode_Firmware/IdentityTransfer.h:46-68 | the loop over groups writes the encoding |
| Base32.KeyFromBase32 | RNode_Firmware/IdentityTransfer.h:70-102 | accepts exactly the texts that decode, and writes the key |
| Base32.ParseChars | RNode_Firmware/IdentityTransfer.h:80-95 | reading the characters of a value gives its top bits |
| Base32.CharsOfParse | RNode_Firmware/IdentityTransfer.h:80-95 | writing a value read gives the characters |
| Base32.RoundTrip | RNode_Firmware/IdentityTransfer.h:46-102 | every 64-byte key gives 104 characters that decode to it |
| Base32.Reencode | RNode_Firmware/IdentityTransfer.h:46-102 | an accepted text re-encodes to itself but for three low bits of the character at index 102 |
| Base32.CanonicalExactly | RNode_Firmware/IdentityTransfer.h:70-102 | accepted texts are encodings exactly when those bits are clear |
| Base32.EightTexts | RNode_Firmware/IdentityTransfer.h:70-102 | the character at index 102 may be any of eight without changing the key read |
| Base32.StrayBitsAccepted | RNode_Firmware/IdentityTransfer.h:70-102 | every key has accepted texts that are not its encoding |
| BleFifo.Fifo.Push | RNode_Firmware/BLESerial.h:33-39 | the newest n - 1 bytes are kept at every wrap position |
| BleFifo.Fifo.Pop | RNode_Firmware/BLESerial.h:41-48 | takes the oldest byte, or -1 |
| BleFifo.Fifo.Get | RNode_Firmware/BLESerial.h:55-60 | the byte at an index of what is held, or -1 |
| BleFifo.Fifo.GetLength | RNode_Firmware/BLESerial.h:62-68 | how many bytes are held |
| BleFifo.RingPush | RNode_Firmware/BLESerial.h:33-39 | the ring's contents after a push, at every head and tail |
| BleFifo.HeldIsNewest | RNode_Firmware/BLESerial.h:27-68 | over any operations what is held is the tail end of what was pushed |

## Left out

- RegionDisplay.Display.DrawBitmap: requires regions on the panel with 16-bit coordinates and a push buffer as large as the bitmap, because the source indexes its fixed buffer unchecked; the colourizer is an arbitrary function of panel position and foreground.
- RegionCache.RunRight: a cached push that hits a slot which an uncached push has painted over, and which was not dropped or replaced since, is not allowed; the firmware drops every slot on menu transitions (`Display.h:4142-4145`).
- The T114 branch of drawBitmap has the same logic with other sizes; `maxW` and `cacheBytes` are parameters here.
- Md5: the shortcut of SET and GET for processors with unaligned little-endian access, and make_digest, which prints hexadecimal.
- EspNow.Radio.Send: in v2 mode a packet is handed on unfragmented and at most 508 bytes long; negotiation of v1 and v2, signal strength and the KISS side channel are not modelled.
- EspNowSystem.EndToEnd: one whole espnow_send is a single step, because the firmware calls it and the drain from the same task; frames of another sender that cut into a packet half received are excluded.
- Kiss.StreamRoundTrip: no idle timeout occurs in the streams considered; command bytes END, CMD_DATA and CMD_UNKNOWN open no command frame and are excluded; commands with one-byte values change nothing modelled, and the queue that CMD_READY serves is absent.
- Kiss.ReadLoop: exceptions raised by the host's own packet callback are not modelled.
- GnssDuty.InvAlways: the moving average is taken over exact reals and truncated; detection of the receiver, NMEA parsing and serial input are inputs or absent.
- Resampler.PolyphaseIsFir: exact reals; design of the windowed sinc taps, rounding of floats and the 4x downsampler are not modelled.
- KeyRing: sequential consistency of the two tasks' accesses; weaker memory orders are not modelled.
- HidReport: consumer-control reports, the repeat timer and the LED report.
- The device names kept by Discovery are cut to length but carry no terminating zero.
- Bluetooth, Ethernet, console, sensors and provisioning code, drawing, fonts and menus, audio codecs and tasks, vault cryptography and prompts, device signatures, serial ports and threads of the host module: wrappers over unseen libraries, input and output.
