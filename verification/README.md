# Verification of the browser-less WebRTC mixer

A Dafny model of the parts of the program that move pictures, samples and text
between threads and buffers, with proofs of what they keep.  `dafny verify
dfyconfig.toml` checks all of it.

The program receives several WebRTC streams, draws them on one picture, and gives
that picture to a Blackmagic output or to another stream.  On the way

- the renderer hands each picture to a service thread through 32 recycled
  buffers, the service hands it to the driver through ten recycled frames, and the
  driver's callback shows it, or shows the last one again (`Pipeline`,
  `DriverOutput`, `Screen`, `HoldLast`, `DisplayTimes`, `OutputPath`);
- decoder callbacks hand received images to the main loop through buffers that are
  recycled per stream (`ImageQueues`, `ImagePath`);
- audio of all streams is mixed with saturation, and 16 kHz audio is stretched to
  48 kHz; blocks wait in a queue per stream in between (`Mixer`, `MixerLaws`,
  `Upsampler`, `AudioPath`);
- a movie player decodes one stream of a container, a call at a time (`Movie`);
- messages are rendered from templates, telnet bytes are cut into commands, and
  pictures are flipped or packed in place (`Replace`, `Template`, `Connect`,
  `Telnet`, `Rows`);
- all of this takes mutexes, in an order (`LockOrder`).

## How it is built

Code that changes objects or arrays in place is a class or a method over an
array, and its contract ties the new state to a function of the old one
(`Accept`, `Complete`, `Grow`, `FillNext`, `ReturnNext`, `Feed`, ...).  The
machines for many threads take these functions, or their pieces, as steps: one
step per critical section, and copies made outside a lock in pieces of any size.
A run is any sequence of enabled steps, so a statement about every run is one
about every interleaving.  `BufferLoop` is the machine of one pool of recycled
buffers with a free and a full queue, any number of writers and one reader; the
pipeline and the image path both use it.

Conventions of the model:

- A buffer address is a number; a class holds the buffer object with that number,
  and `Memory`, `Ids` and `Contents` translate.
- `framelen`, `width * height * 4` and the size of a driver frame are equal, as the
  only call (src/bm.cc:409-416) and the full-HD display mode make them.
- The buffer goes back to ingress (src/bm.cc:417) without the lock; here that is
  one atomic step.
- Driver calls do not wait for callbacks, and the hardware completes a frame only
  when it holds it.
- In `Movie` reading may fail at any time and must fail at the end; a packet may be
  refused at any time; receiving fails exactly when everything the accepted
  packets give has been received.  The `onFrame` callback answers true, as the
  program's does.
- The lower clamp of the mixer is -32767.  The sample buffer of the upsampler has
  one cell behind it, with any contents, because the program writes there.
- A copy of a received image to a texture without room for it has no defined
  outcome; runs stop before it.
- Integers are unbounded, except in `MachineTimesIncreaseUntilWrap`.
- Lemmas carry `{:induction false}`, so every induction is written out.

Six plausible claims are not true of the code.  Each has an input that shows it,
and a result that says for all inputs what holds instead:

- One replacement does not always fill in its tag: a literal `B` between two tags
  `$$A$$B$$C$$` is taken for the tag B (`LiteralTakenForTag`).  It does if and only
  if no literal text between neighbouring tags is the tag's name
  (`ReplacingFillsExactlyWithoutMimics`).
- Chained replacement can fail although no literal of the template is a tag's name,
  because the values filled in first can complete one (`FillingMakesAMimic`).  It
  fills in the template at every stage if and only if no call meets such a literal
  in the template as filled in so far (`ChainFillsExactlyWithoutMimics`).  The two
  templates of the program never do with values that have no dollar sign
  (`TemplatesAreGuarded`).
- A channel id or token is not always sent as it is: the token's tag as channel id is
  replaced by the token (`TokenTagAsChannelId`).  What is sent is known for all values
  (`RenderedIsMessage`).
- The stretched event does not hold every input sample: the last one of a block has
  no cell (`LoudLastSampleIsCutOff`), all others have, and all have one only when
  there are none (`EventHoldsAllButTheLast`).  The loop writes that sample behind
  the event, exactly when it runs at all (`WritesBehindTheEventExactlyWhen`).
- The telnet framer does not complete every command: two in one chunk are one
  request (`TwoCommandsInOneChunk`).  It does exactly when no chunk crosses the end
  of a command (`FramedExactlyWhenNoChunkCrosses`).
- A received image does not always fit the texture of its slot: any smaller static
  image leaves a smaller texture (`SmallImageStays`).  It fits if and only if the last
  static image put there was large enough (`CopiesFitExactlyWhenTheLastImageWasLarge`).

`replace` ends exactly for non-empty targets (`EndsExactlyForNonEmptyTargets`); no
caller in the program passes an empty one.

## Model

| member | source | states |
|---|---|---|
| DriverOutput.Output.constructor | src/bm.cc:191-226 | ten frames and the cached copy, every byte 0xFF; frames 0 to 4 scheduled in order at times 0, d, 2d, 3d, 4d; frames 5 to 9 free in order; counter at ten |
| DriverOutput.Output.SetFrame | src/bm.cc:252-276 | refuses exactly when no frame is free, changing nothing; otherwise only the longest free frame gets the picture and goes to the end of the waiting ones; nothing is scheduled |
| DriverOutput.Output.Repeat | src/bm.cc:287-293 | nothing waiting: the longest free frame, perhaps the one just returned, gets the cached picture; the cache stays |
| DriverOutput.Output.ShowNext | src/bm.cc:294-299 | the longest waiting frame is taken unwritten and its picture cached; the returned frame becomes free |
| DriverOutput.Output.ScheduledFrameCompleted | src/bm.cc:278-316 | whole new state; exactly one more picture scheduled, the first waiting one or the cached one, in its frame; the counter goes up by one, or by three after a frame displayed late or dropped, and the time is the counter after the skip times the duration |
| Screen.StepKeepsPartition | src/bm.cc:260-313 | every call and every completion, of whichever frame, keeps the ten frames in hardware, waiting queue and free queue, once each, five on hardware |
| Screen.EveryFrameHasOnePlace | src/bm.cc:191-313 | in every run each frame is in exactly one of the three places, five on hardware, and the two queues hold five |
| Screen.HardwareHoldsWhatWasScheduled | src/bm.cc:260-313 | in every run a frame on the hardware still holds, byte for byte, a picture that was scheduled in it |
| Screen.NoScheduledFrameIsWritten | src/bm.cc:260-300 | no step writes a frame the hardware keeps |
| Screen.AnyFrameMayComplete | src/bm.cc:278-283 | in every reachable state any of the five frames on the hardware may complete next, and any picture may be offered |
| HoldLast.StepRefines | src/bm.cc:252-316 | each critical section is one step of a plain display with five waiting places |
| HoldLast.OutputIsHoldLast | src/bm.cc:191-316 | in every run the pictures scheduled and waiting are those of the plain hold-last display, whichever frames complete and how |
| HoldLast.RefusedExactlyWhenFiveWait | src/bm.cc:262-264 | in every run a picture is refused if and only if five accepted ones are waiting |
| HoldLast.EachShotIsNextOrRepeat | src/bm.cc:260-315 | accepted pictures are those shown as new followed by those waiting; each scheduled picture is the next accepted one or a copy of the one before; the first five are white |
| HoldLast.AcceptedPicturesAreShown | src/bm.cc:289-313 | wherever a run of the output is cut, the j-th picture waiting there is scheduled at the j-th completion after; at most five wait, so none waits longer than five completions |
| DisplayTimes.RunIsTimed | src/bm.cc:191-223 | after k completions, d late or dropped, the counter is 10 + k + 2d, and each time ever given is its slot times the duration |
| DisplayTimes.LateCountsLateAndDropped | src/bm.cc:301-304 | d counts the completions reported late and those reported dropped, and no others |
| DisplayTimes.TimesStrictlyIncrease | src/bm.cc:301-313 | for any positive duration times strictly increase over every run, start-up included |
| DisplayTimes.MachineTimesIncreaseUntilWrap | src/bm.cc:307 | with a 32-bit counter they strictly increase if and only if no slot number reaches 2^32 |
| Pipeline.Device.SetFrame | src/bm.cc:90-104 | ends the program exactly for an unknown output; otherwise the output does what `setFrame` does and a refusal is not reported |
| Pipeline.Queue.Start | src/bm.cc:384-397 | 32 fresh distinct buffers, all in ingress in order, egress empty |
| Pipeline.Queue.AddPipelineFrame | src/bm.cc:426-453 | no buffer: nothing changes; wrong length: ends the program after taking a buffer; else the picture is at the end of egress, in the buffer that was first in ingress |
| Pipeline.Queue.ServiceOnce | src/bm.cc:399-423 | the first egress picture is given to the first output, and its buffer is back at the end of ingress whether or not it was accepted |
| BufferLoop.EveryBufferHasOneOwner | src/bm.cc:387-453 | one reader, any number of writers, any interleaving: each buffer ever added is in exactly one queue or pair of hands |
| BufferLoop.ReaderSeesWhatWasPublished | src/bm.cc:399-453 | what the reader finds is, in order and undamaged, the first part of what was published; the rest waits; a copy under way agrees so far |
| BufferLoop.OnlyTheHolderWrites | src/bm.cc:439-452 | a step changes bytes only in the buffer of the writer that takes it, never in a published or held one |
| BufferLoop.CopiesInBounds | src/bm.cc:448 | every piece of every copy is inside both blocks |
| BufferLoop.RefusedExactlyWhenAllInTransit | src/bm.cc:435-438 | a writer is turned away if and only if every buffer ever added is in transit |
| BufferLoop.FillNextIsThreeSteps | src/bm.cc:433-452 | a writer's call run alone has the effect of its three interleaved steps |
| BufferLoop.ReturnNextIsFourSteps | src/bm.cc:400-419 | a reader's turn run alone has the effect of its four interleaved steps, and copies the picture that was first |
| BufferLoop.WritesInPieces | src/bm.cc:448 | a copy into a buffer may be cut anywhere; its pieces together do what it does at once |
| BufferLoop.ReadsInPieces | src/bm.cc:409-416 | the same for the copy out of a buffer |
| BufferLoop.AnyWriterCanFinish | src/bm.cc:448-452 | of any number of writers any may finish next; its picture, in its buffer, is then last in the full queue, and nothing else changes |
| OutputPath.HeldPictureIsNumbered | src/bm.cc:402-416 | what the service has copied in full is the very picture the renderer offered under its number |
| OutputPath.NewPicturesFollowProduction | src/bm.cc:252-453 | for every interleaving of renderer, service and driver, the pictures scheduled as new are a subsequence, in production order and byte for byte, of those produced |
| OutputPath.EachPictureIsAccountedFor | src/bm.cc:252-453 | each picture produced is exactly one of: no buffer, no driver frame, shown, waiting, under way |
| OutputPath.DropsOnlyAtTheTwoQueues | src/bm.cc:435-438 | a step drops a picture if and only if it finds ingress, or the free driver frames, empty; which is when 32 buffers are in transit, or five pictures wait |
| OutputPath.PipelineBuffersHaveOneOwner | src/bm.cc:387-452 | after start-up each of the 32 buffers has one owner at every step, also when `setFrame` refuses; the buffer being filled is not the one being read |
| OutputPath.OutputRun | src/bm.cc:398-423 | the completions and accepted pictures of this very run, in its order, are a run of the output alone that ends in the same state |
| OutputPath.WholePathIsHoldLast | src/bm.cc:252-453 | so the whole path is the hold-last display driven by just those events, with strictly increasing times |
| OutputPath.AcceptedPicturesAreShown | src/bm.cc:252-453 | wherever a run of the whole path is cut, the pictures waiting for the hardware are scheduled in order, one at each of the next completions |
| OutputPath.RendererAlone | src/bm.cc:426-453 | the renderer's call left alone: the three steps are possible one after the other and do to the queues what the call does |
| OutputPath.ServiceAlone | src/bm.cc:399-423 | the service's turn left alone: the first egress picture goes to the output, or nowhere when it has no free frame, and its buffer is back in ingress |
| OutputPath.UndisturbedDelivery | src/bm.cc:399-453 | with nothing under way a picture offered goes through all seven steps to the output, which accepts that very picture, or drops it for want of a frame |
| OutputPath.NoThreadWaits | src/bm.cc:252-453 | in every reachable state each of renderer, service and driver has a next step, whatever the others do; copies may go on by any number of bytes |
| ImageQueues.Instance.EventInit | src/event.cc:59-70 | 30 more fresh blank buffers at the end of the empty queue, everything already there untouched |
| ImageQueues.Instance.PushBinEvent | src/event.cc:87-100 | the buffer joins the end of the queue its type names, or nothing changes |
| ImageQueues.Instance.PopBinEvent | src/event.cc:102-126 | answers exactly when the queue named is not empty, with its first buffer |
| ImageQueues.Instance.OnFrame | inc/bres+client_webrtc_inl.hh:328-379 | refused exactly when no buffer is empty; else the picture is last in the current queue, in the buffer that was first in the empty one |
| ImageQueues.CollectFrames | src/main.cc:72-79 | for each slot in use with a current image: the first 640 * 360 * 4 bytes of its texture are those of the first current buffer, the rest of the texture stays, and that buffer is last in the empty queue; every other slot stays; only a slot that has an image to copy needs room for one |
| ImageQueues.Instance.AddStaticImage | src/resource_static_image.cc:37-52 | the texture takes the size of the image and the queues stay, so the next collect pass has room for its copy if and only if no received image is queued or the static image has no fewer pixels than a received one |
| ImagePath.TextureFollowsPushes | src/main.cc:74-76 | in every run with any number of callbacks, and static images in between, the images copied to the texture are a prefix of those pushed, in push order; between copies it is the last static image, or blank, under the last image copied since |
| ImagePath.CopiesFitExactlyWhenTheLastImageWasLarge | src/resource_static_image.cc:51 | in every run a received image fits the texture if and only if the last static image in the slot, if any, had at least its size |
| ImagePath.SmallImageStays | src/main.cc:75 | for every static image smaller than a received one, a run after which the main loop holds an image that does not fit |
| ImagePath.EveryImageBufferHasOneOwner | src/event.cc:64-69 | each of the 30 buffers per subscription has exactly one owner in every run |
| ImagePath.PushedImagesAreNotOverwritten | inc/bres+client_webrtc_inl.hh:343-378 | no two users share a buffer, and an image pushed or being copied is not written |
| ImagePath.RefusedExactlyWhenAllInTransit | inc/bres+client_webrtc_inl.hh:344-347 | a decoder frame is refused if and only if every buffer ever allocated is in transit |
| ImagePath.CallbackAlone | inc/bres+client_webrtc_inl.hh:343-378 | a decoder callback left alone: its three steps do to the queues what the call does |
| ImagePath.AnyCallbackCanFinish | inc/bres+client_webrtc_inl.hh:378 | of any number of callbacks any may finish next; its image is then last in the current queue |
| ImagePath.CollectAlone | src/main.cc:74-76 | a collect left alone: the texture holds the first current image over what was behind it, and its buffer is empty again |
| ImagePath.CollectAloneIsTheCollectPass | src/main.cc:72-79 | that is what the program's pass does to the slot |
| ImagePath.NoThreadWaits | src/event.cc:87-126 | in every reachable state callbacks may come and go on, and the main loop has a next step, as long as the copy fits |
| LockOrder.EveryTaskIsOrdered | src/bm.cc:99-103 | every call takes its locks in the order device, output, all others, and gives them all back; the others, among them each audio renderer's, are never nested |
| LockOrder.NestedCalls | src/bm.cc:330-343 | which calls take a lock while they hold one: the device's around the output's, and the output's around each channel's in turn |
| LockOrder.SingleCalls | src/event.cc:30-109 | all other calls take one lock and give it back |
| LockOrder.NoCircularWait | src/bm.cc:332-342 | in no reachable state of any number of threads does each member of a set wait for a lock held in the set |
| LockOrder.SomeThreadCanMove | src/event.cc:30-57 | while any thread has something to do, some thread can move |
| Mixer.MixBlock | src/audio.cc:77-88 | each of the 480 samples is the exact sum, or 32767 above it, or -32767 below it; the rest of the output is untouched |
| Mixer.MixChannels | src/audio.cc:65-93 | the first 480 samples are the left fold of clamped addition over the playing channels, all further ones are zero; each subscribed channel lost one block |
| Mixer.Audio.AudioCallback | src/audio.cc:48-102 | that mix is played; exactly when some channel played and something is publishing, 960 values are rendered: each played sample followed by a zero |
| Mixer.Audio.AudioCallbackSDI | src/audio.cc:104-141 | the same mix, and a quarter of the length in bytes as frame count |
| AudioPath.BlocksAreTakenInOrder | src/event.cc:5-57 | with pushes and slot changes between any two pops: the blocks a slot has given to callbacks are the first that were queued in it, each once, and the others wait in order |
| AudioPath.EachTurnMixesTheNextBlocks | src/audio.cc:65-93 | in every run each callback leaves, per sample, the mix of one block from each drawn slot that had one, the block next to those the slot gave to earlier callbacks |
| AudioPath.KthTurnTakesKthBlockExactlyWhen | src/audio.cc:70-75 | a slot's k-th block is in the k-th callback if and only if the slot has had a block for every callback so far |
| AudioPath.HeardExactlyForOneChannel | src/audio.cc:76 | both formats queue 480 samples for each audio channel; a queued block can be heard if and only if it was received with one channel |
| AudioPath.UndisturbedCallbackIsTheLoop | src/audio.cc:65-93 | left alone, the callback of the machine does to channels and samples what the channel loop does |
| AudioPath.NoThreadWaits | src/event.cc:5-57 | in every reachable state a slot may change, a block may be queued, which then is last in the slot's queue, and the callback can go on |
| MixerLaws.MixIsBounded | src/audio.cc:80-86 | the mix of any contributions is in [-32767, 32767] |
| MixerLaws.MixIsExact | src/audio.cc:80-86 | it is the exact sum when no partial sum leaves the range |
| MixerLaws.RisingMix | src/audio.cc:80-86 | contributions that are never negative mix to the clamped exact sum |
| MixerLaws.FallingMix | src/audio.cc:80-86 | contributions that are never positive mix to the clamped exact sum |
| MixerLaws.MixIsMonotone | src/audio.cc:77-88 | raising any contribution never lowers the mix |
| MixerLaws.MixIsStable | src/audio.cc:126-135 | two mixes differ by at most the sum of the differences |
| MixerLaws.OrderIsIrrelevantExactlyWhen | src/audio.cc:65-92 | every channel order gives the same mix if and only if contributions share a sign or neither sign alone can overflow; then it is the clamped exact sum |
| Upsampler.NormalizedThird | inc/bres+client_webrtc_inl.hh:308-315 | the detour through [-1, 1) is exact: the cell is the straight line's value, cut towards zero |
| Upsampler.TruncIsTowardsZero | inc/bres+client_webrtc_inl.hh:312-315 | the conversion to 16 bits goes towards zero by less than one |
| Upsampler.Upsample | inc/bres+client_webrtc_inl.hh:301-316 | the loop's buffer, every cell, for every length, and the cell behind it, whatever was there |
| Upsampler.OnData | inc/bres+client_webrtc_inl.hh:286-325 | a block is queued exactly for 16 bits at 48 kHz with 480 frames or 16 kHz with 160; at 48 kHz it is the block received, at 16 kHz the stretched event, which has each sample but the last in its cell; 480 values for each channel |
| Upsampler.EventHoldsAllButTheLast | inc/bres+client_webrtc_inl.hh:301-322 | cells 0 to 2 of the event are silent; cell 3n is sample n - 1 for every sample but the last; all samples have a cell if and only if there are none |
| Upsampler.LastSampleShowsInTwoCells | inc/bres+client_webrtc_inl.hh:304-316 | two blocks that differ in the last sample only give events that differ in the last two cells only |
| Upsampler.LoudLastSampleIsCutOff | inc/bres+client_webrtc_inl.hh:300-322 | 160 samples, the last 300 and the others silent: nothing in the event is above 200 |
| Upsampler.WritesBehindTheEventExactlyWhen | inc/bres+client_webrtc_inl.hh:304-315 | the loop changes the cell behind the event if and only if there are two samples or more |
| Upsampler.BufferHoldsEverySample | inc/bres+client_webrtc_inl.hh:304-316 | with that cell, sample n - 1 of two or more is cell 3n for every n |
| Upsampler.CellsBetween | inc/bres+client_webrtc_inl.hh:312-314 | the cells between two samples lie between them, less than one unit off the straight line |
| Upsampler.SharedCellAgrees | inc/bres+client_webrtc_inl.hh:312-315 | the cell written twice gets the same value both times |
| Upsampler.RisingStaysRising | inc/bres+client_webrtc_inl.hh:304-316 | a rising input gives a rising output from cell 3 on |
| Movie.Player.Iterate | src/examples/play_movie/src/main.cc:133-170 | ends; hands out exactly one frame, right after receiving it, and answers true, or none and false, only right after a read or a send failed; a false at the end of the container means all frames were handed out |
| Movie.DeliveredIsPrefix | src/examples/play_movie/src/main.cc:138-168 | over any number of calls the frames handed out are, in order, a prefix of the decoder's output for the chosen stream's packets |
| Movie.ChosenOfBoth | src/examples/play_movie/src/main.cc:146-150 | the chosen packets of two stretches are those of the first, then those of the second |
| Movie.SendsOnlyWhenDrained | src/examples/play_movie/src/main.cc:151-160 | between an accepted packet and the next one offered the decoder reported itself drained |
| Movie.Play | src/examples/play_movie/src/main.cc:85-114 | over any number of calls, what has been rendered is, frame by frame, the packed rows of the frames handed out, which are such a prefix |
| Movie.RenderedByteByByte | src/examples/play_movie/src/main.cc:91-110 | byte c of row r of each picture rendered is the byte `r * linesize + c` after the frame's start |
| Replace.FindIsLeftmost | src/websockets.cc:171-174 | the search finds the leftmost match, or there is none |
| Replace.ReplaceAll | src/websockets.cc:165-177 | the loop ends for every non-empty target and gives the parts between the matches joined by the new text |
| Replace.SplitIsLeftmost | src/websockets.cc:171-174 | those parts, joined by the target, are the source, and no match starts earlier than a part's end |
| Replace.SplitIsUnique | src/websockets.cc:171-174 | only one list of parts does that |
| Replace.TurnsEndWithTheResult | src/websockets.cc:171-176 | whenever the loop has no match left after some number of turns, its text is the replaced one |
| Replace.EndsExactlyForNonEmptyTargets | src/websockets.cc:172-175 | the loop ends if and only if the target is not empty |
| Template.ReplacingFillsExactlyWithoutMimics | src/websockets.cc:165-177 | replacing a tag fills it in, and changes nothing else, if and only if no literal between neighbouring tags is that tag's name |
| Template.LiteralTakenForTag | src/websockets.cc:171-175 | the smallest template where it does not |
| Template.ChainFillsExactlyWithoutMimics | src/websockets.cc:82-93 | chained calls fill in the template, after each call, if and only if no call meets, in the template as filled in so far, a literal between neighbouring tags that is its tag's name |
| Template.FillingMakesAMimic | src/websockets.cc:171-176 | a template without such literals, and two calls of which the first makes one for the second |
| Template.AnyOrderFillsExactlyWithoutMimics | src/websockets.cc:82-93 | every order of the calls fills in the template at every stage if and only if no order meets such a literal |
| Template.OrdersAgree | src/websockets.cc:82-93 | two orders that meet none give the same text |
| Template.ChainFills | src/websockets.cc:82-93 | a simple case: a character that no name has stands between neighbouring tags |
| Template.AnyOrderGivesTheSame | src/websockets.cc:82-93 | and then all orders give the same text |
| Connect.ConnectFillsItsFields | inc/bres+client_ext.h:10-31 | both connect templates become the message with its three fields in place, in any order of the calls, when no value has another field's tag in it |
| Connect.RenderedIsMessage | src/websockets.cc:82-93 | for all values: the message sent is the template with its fields in place, the id as the two later calls leave it and the token as the last one does |
| Connect.MessageSpelledOut | inc/bres+client_ext.h:10-31 | the message letter by letter: recvonly for a subscriber, sendonly and no statistics for a publisher, and the multistream field exactly for "on" |
| Connect.TokenArrivesExactlyWhen | src/websockets.cc:88-93 | the token arrives unchanged if and only if it has no multistream tag in it |
| Connect.NoLaterTagGivesMessage | src/websockets.cc:82-93 | the message is the intended one when no value has a tag in it that is replaced later |
| Connect.TokenTagAsChannelId | src/websockets.cc:84-88 | with the token's tag as channel id the token is sent twice, and the id is not sent |
| Connect.TemplatesAreGuarded | inc/bres+client_ext.h:10-31 | both templates have a quote between any two tags, which no name has |
| Connect.Instance.Established | src/websockets.cc:80-103 | exactly one connect event is queued; its text is that message, for all values |
| Telnet.Service.OnRecv | src/telnet_service.cc:38-115 | no data closes the client; a request is complete exactly when it has more than two bytes and ends in a line feed or has a carriage return before its last byte; which of the five types gives which command; a type that is not a string throws, with the request kept and nothing queued |
| Telnet.Service.Serve | src/telnet_service.cc:46-105 | over any chunks: the events queued are those of the requests completed, in order, up to the first request that throws, if any |
| Telnet.FramedExactlyWhenNoChunkCrosses | src/telnet_service.cc:52-104 | each command is completed once, whole and in order, with nothing kept, if and only if no chunk crosses the end of a command |
| Telnet.TwoCommandsInOneChunk | src/telnet_service.cc:52-56 | two commands in one chunk are completed as one request |
| Rows.Flip | src/main.cc:110-115 | row r is the old row H - 1 - r, for every width and every height, odd included |
| Rows.FlipMovesPixels | src/main.cc:110-115 | byte by byte: the row is mirrored, the column stays |
| Rows.FlipTwice | src/main.cc:110-115 | twice restores the picture |
| Rows.PackRows | src/examples/play_movie/src/main.cc:91-103 | byte c of packed row r is the byte `r * linesize + c` after the start, for every row and any distance between rows, also a negative one |
| Rows.PackingIgnoresGaps | src/examples/play_movie/src/main.cc:96-103 | two planes with the same bytes in their rows pack to the same picture, wherever the rows lie |

## Left out

- Movie.Player.Iterate: the frames a real decoder would give only when flushed at the end are not counted, because the program never flushes it.
- Upsampler.NormalizedThird: arithmetic is exact; the rounding of `double` is not modelled.
- Mixer.Audio.AudioCallback: samples are 16-bit values, not pairs of bytes, and the stereo buffer is written after the mix, because only its final contents are used; the output holds at least one block.
- OutputPath.OutputRun: a refused `setFrame` leaves no event in the output's own run, because it changes nothing there.
- Pipeline.Queue.ServiceOnce: the data race on ingress at src/bm.cc:417 is not modelled.
- Telnet.Service.OnRecv: JSON is a test for validity and a lookup of the type, both parameters; what becomes of the thrown exception is not modelled, only that serving ends.
- ImageQueues.CollectFrames: does not say what a copy to a texture without room does; that copy is undefined in the program.
- ImageQueues.Instance.OnFrame: scaling and colour conversion are outside; the picture is given as converted.
- Output and Device destruction, device arrival and its driver set-up: driver calls around a list; removing an output while a callback runs is not modelled.
- `event_quit`: it is never called, so the pool only grows.
- `push_event` and `pop_event`: plain queues; the model has them where they are used.
- `sendTarget`: a single slot that is overwritten, so messages may be lost.
- The channel slot table and the loading of static images: first fit over slots, whose stale names make stronger lookups false.
- Locks inside libwebrtc and the other libraries, and those of the separate example programs: not part of `LockOrder`.
- ImageQueues.Instance.AddStaticImage: the loaded block has at least `w * h * 4` bytes; an image with fewer than four components to a pixel is not modelled.
- Offer, answer and the libwebrtc callbacks around them: they depend on signalling state inside the library.
- Sockets, libevent, OpenGL, shaders, SDL, logging, real time and `usleep`: input and output.
