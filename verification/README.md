# A verified model of the ENC28J60 network stack

The program connects an ENC28J60 Ethernet chip to an STM32 board. A driver talks to the chip over SPI;
a packet task moves frames between the driver and three queues of packet buffers; an IP task answers
echo requests. This project models the three layers together with the chip and proves what they promise.

| file | module | models |
|---|---|---|
| `bytes.dfy` | `Bytes` | bytes, bits, 13-bit addresses in two registers |
| `checksum.dfy` | `Checksum` | one's-complement sums of RFC 1071 and RFC 1624 |
| `ping.dfy` | `Ping` | recognising and answering echo requests, in place on arrays |
| `readlog.dfy` | `ReadLog` | a record of the read calls, and what it says about the frames taken in |
| `ring.dfy` | `RxRing` | the receive ring: records, wrap-around, free space, the read limit |
| `chip.dfy` | `Registers`, `Chip` | register banks, SPI commands, buffer memory, receive engine |
| `driver.dfy` | `Driver` | the driver, as a class over the chip and its shadow bank |
| `protocol.dfy` | `Protocol` | the two tasks as a state machine, and its invariant |
| `guarantees.dfy` | `Guarantees` | what follows for every run: conservation, refinement, deadlock, draining |
| `witnesses.dfy` | `Witnesses` | states and events for everything that can go wrong in the driver |
| `tasks.dfy` | `Tasks` | the tasks as they are: queues, eight buffers written in place, the driver |

How the layers fit:

* **Chip and driver.** Before every SPI command the chip may do anything it can do on its own, any number of
  times: receive a frame, refuse one, finish a transmission, let time pass. Every contract of the driver
  therefore holds for every interleaving with receptions. Ghost fields record the frames the chip took in
  (`accepted`), those whose turn is over (`delivered`), and every call of `enc28_read_packet` (`history`):
  status, packet, the number of the frame it was about, and how many frames the chip had taken in when head
  and body were read and when the limit was set. `Synced` says that driver and chip are in step, `fenced`
  that the receive engine is confined to the ring, which holds even when they are not.
* **Ring.** Addresses are followed through *positions*, natural numbers that only grow; `At(p)` is the address
  of position `p`. Wrap-around is then counting on, and the invariant is `h <= w < r < w + SIZE` for oldest
  record, write pointer and read limit. Of all that was written the ring holds the last `SIZE` bytes. The
  limit is *tight* when `r < h + SIZE`: then whatever arrives fits.
* **Tasks.** One step is one queue operation, one copy or one driver call, and steps interleave in any order,
  which is more than the configured scheduler does. `Protocol` has each step as a function and proves an
  invariant; `Tasks` does the same steps on objects and arrays, and each method is proved equal to its
  function. `RunApplication` puts everything together.

Results that say the program does *not* do what one would expect, each with the exact condition and, in
`Witnesses` or beside it, a case in which it happens:

* The reply's ICMP checksum is right if and only if the field of the request, read little-endian, is below
  0xFFF8 (`Ping.ReplyChecksumExact`; `Ping.LostCarryExample` is a request it gets wrong).
* The receive error branch puts the read limit to the end of the ring. Frames can come in between reading EIR
  and setting the limit. If those run past the end of the ring, the limit no longer keeps the chip away from
  them (`ResetReceiver`, `RxRing.ResetLimitExact`, `RxRing.TightExact`). Nothing is lost yet, and the next
  read usually puts the limit right again. A frame is damaged if the chip comes round to it before it is read:
  its head if the frames waiting when the head is read span more than the ring, its body if they span more
  than six bytes beyond that when the body is read (`ReadPacket`, `RxRing.OverrunOverwrites`,
  `Witnesses.LostFrame`); an overrun that reaches only what was already copied does no harm
  (`Witnesses.CopiedInTime`). It puts driver and chip out of step if and only if what was overwritten makes
  the driver refuse the frame or read a wrong pointer to the next one; otherwise the limit is tight again if
  and only if what still waits spans less than the ring (`AdvanceRing`).
* A frame refused as bad or too long leaves ERDPT inside its record and is not counted off (`ReadRecord`); the
  next call takes its first six bytes for the head of a record (`Witnesses.RefusedThenMisread`).
* Beginning a transfer a second time leaves driver and chip in step if and only if the oldest waiting frame
  happens to be at the start of the ring (`BeginPacketTransfer`); otherwise a frame already delivered can be
  read again (`Witnesses.SecondBeginRereads`).
* The transmit status vector is looked for at the right address if and only if ETXND is below 256, that is, for
  packets of at most 225 bytes (`Driver.StatusVectorAddressExact`, `Witnesses.StatusVectorMissed`).
* The command that reads the status vector is seven bytes long with its opcode, so it reads six of the seven
  bytes (`Driver.Enc28.ReadVectorAt`); the program does not use them yet.
* A bank switch requests a transmission again that ends between its two commands
  (`Driver.BankSwitchRepeatsRequest`, `Witnesses.SentTwice`).
* In the lwIP build, which the header selects (stm32_app/stm32_network_app.h:37), the tasks can deadlock
  (`Guarantees.DeadlockReachable`), and only on runs on which lwIP sends while it holds no input packet
  (`Guarantees.NoDeadlockWhenDisciplined`, `Guarantees.DeadlockExact`).
* The comment at enc28j60/enc28j60.c:802 calls ETXND the last byte of the packet; the code programs the address
  behind it, and the model follows the code.

## Model

| member | source | states |
|---|---|---|
| `Driver.Enc28.Traffic` | enc28j60/enc28j60.c:650-892 | The receive ring is a FIFO queue over every sequence of read, write, status check, PHY read and end-of-transfer calls and every interleaving of receptions. Each read is recorded with its status, its packet, the frame it was about and how far the chip had got: OK if and only if a frame was taken (or the driver misled), NO_DATA if and only if none waited, the frame always the next one in turn, its bytes returned whenever it was intact. In step afterwards if and only if no frame was refused and no overwritten pointer read; while in step and intact, the packets returned are the frames the chip took in, in order; so they are, starting with a tight limit, if every read returned OK or NO_DATA; meanwhile the packets handed to the transmitter are those of the write calls that were not refused, in order, and a write is refused as too short exactly below 14 bytes |
| `Driver.Enc28.NextCall` | enc28j60/enc28j60.c:650-892 | One call of any kind but begin: a read adds its status and packet to the records, a write that was not refused its packet to those handed over, and no other call adds anything |
| `Driver.Enc28.ReadTxrts` | enc28j60/enc28j60.c:767-774 | The busy flag as it stands when ECON1 is read |
| `Driver.Enc28.ReadCall` | enc28j60/enc28j60.c:650-757 | One read: its packet is appended to those returned, its record to the records, and these still explain whether driver and chip are in step |
| `ReadLog.ExplainsMore` | enc28j60/enc28j60.c:650-757 | The explanation is kept by one more call, whatever came in meanwhile: every record in its place, in step if and only if all calls were, tight and intact as long as no call reported an error |
| `ReadLog.PacketsAreFrames` | enc28j60/enc28j60.c:650-757 | While in step with every packet intact, the packets returned are exactly the frames taken in from the first undelivered one on, in order |
| `ReadLog.FirstInFirstOut` | enc28j60/enc28j60.c:650-757 | So it is, beginning with a tight limit, if every call returned OK or NO_DATA, or if all frames from then on are good and fit the buffer and no receive error was handled while one waited |
| `Driver.Enc28.ReadPacket` | enc28j60/enc28j60.c:650-757 | The oldest waiting frame is returned byte for byte (also across the end of the ring) if the waiting frames spanned at most the ring when its head was read and at most six bytes more when its body was; or it is refused for a reason of its own; the other branches need an empty ring; READ_PTR_OUT_OF_RANGE cannot occur in step. In step afterwards if and only if they were before, no frame was refused, and the next pointer read was right, as it is whenever the head was intact; the limit is then tight if and only if the frames still waiting when it was set span less than the ring. With a tight limit nothing is ever overwritten. In step or not: with a packet pending READ_PTR_OUT_OF_RANGE exactly when ERDPT is outside the ring; with the receiver off and nothing pending PACKET_RCV_ERR or NO_DATA as RXERIF was set or not; RXERIF is clear after either, so after a handled error the next call finds none |
| `Driver.Enc28.HandleEvent` | enc28j60/enc28j60.c:656-756 | A pending packet comes first, and then ERDPT outside the ring is reported; with none pending RXERIF decides between the receive error branch, which clears it, and NO_DATA |
| `Driver.Enc28.ReadEir` | enc28j60/enc28j60.c:652-656 | PKTIF and RXERIF as they stand when the register is read; driver and chip stay in step |
| `Driver.Enc28.ReadPending` | enc28j60/enc28j60.c:656-737 | The packet branch: READ_PTR_OUT_OF_RANGE exactly when ERDPT is outside the ring, else the record |
| `Driver.Enc28.ReadRecord` | enc28j60/enc28j60.c:672-736 | Head of the record, the two refusals, or the frame; a refusal leaves ERDPT six bytes into the record and the packet count as it was; head and status are those of the oldest frame whenever the ring could hold what waited when the head was read; a refused frame is described in the status vector as well |
| `Driver.Enc28.ReadReadPointer` | enc28j60/enc28j60.c:662-665 | The two register bytes recombine to ERDPT |
| `Driver.Enc28.ReadHeader` | enc28j60/enc28j60.c:672-683 | The six bytes after the opcode are next pointer, length and status of the oldest record if the ring can hold what waits |
| `Driver.Enc28.ReadBody` | enc28j60/enc28j60.c:702-705 | The buffer receives exactly the frame if the chip has at most come round to the head by then; the rest of it is kept |
| `Driver.Enc28.TakePacket` | enc28j60/enc28j60.c:702-736 | The frame is copied, leaves the ring if and only if the pointer read is that of the next record, and the packet count goes down by one |
| `Driver.Enc28.CountOff` | enc28j60/enc28j60.c:734 | The packet count goes down by one, whatever came in meanwhile, and nothing else changes |
| `Driver.Enc28.AdvanceRing` | enc28j60/enc28j60.c:708-732 | ERDPT moves to the next record and ERXRDPT to just before it, with the step back over the start of the ring; this takes exactly the oldest frame out if and only if the pointer is that of the next record, and leaves a tight limit if and only if what still waits spans less than the ring, which it does if the limit was tight before |
| `Driver.Enc28.WriteLimit` | enc28j60/enc28j60.c:728-731 | The new limit counts from the write of its high byte on |
| `Driver.Enc28.ResetReceiver` | enc28j60/enc28j60.c:738-752 | The receive error branch loses no frame taken in by the time the limit is set; the new limit keeps the chip away from them if and only if they do not run past the end of the ring; the write pointer and the frames it is decided on are those of the chip at that moment. RXERIF is cleared and no other flag |
| `Driver.Enc28.LimitToEnd` | enc28j60/enc28j60.c:743-746 | ERXRDPT is at the end of the ring, with receptions interleaved between the two register writes; which frames wait and where the chip writes next |
| `Driver.Enc28.WritePacket` | enc28j60/enc28j60.c:759-823 | Control byte and exactly the packet bytes from ETXST on, for every length from 14 to 1962 on an initialised chip; too short and busy cases change nothing; ring, ERDPT and the count of waiting frames survive, whatever arrives meanwhile |
| `Driver.Enc28.Transmit` | enc28j60/enc28j60.c:777-822 | The pointers, for every length, the data and the request of a transmission |
| `Driver.Enc28.PointToTransmitBuffer` | enc28j60/enc28j60.c:777-789 | ETXST and EWRPT point to the transmit area |
| `Driver.Enc28.LoadPacket` | enc28j60/enc28j60.c:791-798 | One command stores the control byte and the packet; at most 1962 bytes touch nothing of the ring |
| `Driver.Enc28.StartTransmission` | enc28j60/enc28j60.c:808-820 | TXIF is cleared and no other flag, TXRST raised once and released, TXRTS requested, the loaded bytes are still there |
| `Driver.Enc28.PulseTxReset` | enc28j60/enc28j60.c:812-817 | TXRST is raised, if it was not, and ends up cleared; the rest of ECON1, memory and flags are as before |
| `Driver.Enc28.CheckOutgoingPacketStatus` | enc28j60/enc28j60.c:825-892 | ERDPT has its old value on return whatever address the vector was read from, so the call can be inserted anywhere; for a transmission that has ended, ABORTED exactly when TXABRT was set, and NO_DATA exactly when TXIF was not |
| `Driver.Enc28.ReadStatusVector` | enc28j60/enc28j60.c:836-881 | Save, read, restore; the bytes read are the six at the address computed |
| `Driver.Enc28.ReadVectorAt` | enc28j60/enc28j60.c:857-870 | The command reads six bytes from the address it was given |
| `Driver.StatusVectorAddressExact` | enc28j60/enc28j60.c:852-858 | The address computed for the status vector is right if and only if ETXND is below 256, because the high byte is shifted before it is masked |
| `Witnesses.StatusVectorMissed` | enc28j60/enc28j60.c:800-858 | In what a caller knows: it is right if and only if the packet has at most 225 bytes |
| `Driver.Enc28.SelectBank` | enc28j60/enc28j60.c:522-543 | From any pair of shadow bank and selected bank both become the requested one, and nothing else of ECON1 changes |
| `Driver.BankSwitchRepeatsRequest` | enc28j60/enc28j60.c:529-535 | A transmission that ends between the read and the write of ECON1 is requested again, if and only if it was running at the read |
| `Witnesses.SentTwice` | enc28j60/enc28j60.c:529-535 | A state and a completion for which that happens |
| `Driver.ClassifierExact` | enc28j60/enc28j60.c:51-86 | With the right bank the dummy byte is expected exactly where the chip sends one, except at unusable addresses of bank 2 |
| `Driver.Enc28.ReadCtlReg` | enc28j60/enc28j60.c:343-386 | The value of the register whenever the dummy byte is classified right |
| `Driver.Enc28.WriteCtlReg` | enc28j60/enc28j60.c:403-432 | The chip decodes exactly the emitted bytes as this register write |
| `Driver.Enc28.SetBitsCtlReg` | enc28j60/enc28j60.c:464-491 | The chip decodes exactly the emitted bytes as this bit field set |
| `Driver.Enc28.ClearBitsCtlReg` | enc28j60/enc28j60.c:493-520 | The chip decodes exactly the emitted bytes as this bit field clear |
| `Chip.RegisterRoundTrip` | enc28j60/enc28j60.c:329-432 | Through the bytes on the wire: a value written to a plain register of the selected bank is read back, dummy byte included, and no register of any bank but this one reads differently |
| `Chip.BitFieldRoundTrip` | enc28j60/enc28j60.c:434-520 | The bit field commands on a plain ETH register are bitwise or and bitwise and-not |
| `Bytes.OrBit` | enc28j60/enc28j60.c:434-491 | Bit field set is the bitwise or, bit by bit |
| `Bytes.AndNotBit` | enc28j60/enc28j60.c:449-520 | Bit field clear is the bitwise and with the complement, bit by bit |
| `Bytes.SplitAddress` | enc28j60/enc28j60.c:88-113 | A 13-bit address split over a low and a high register recombines to itself |
| `Bytes.AddressSplit` | enc28j60/enc28j60.c:662-665 | And the two registers are recovered from the address |
| `Chip.Econ1BitField` | enc28j60/enc28j60.c:812-820 | Setting or clearing bits of ECON1 above BSEL is the bitwise or, or and-not, of its upper half, does what the mask says to TXRTS and RXEN, and keeps the bank |
| `Chip.Econ1Field` | enc28j60/enc28j60.c:640-646 | Setting or clearing RXEN, TXRTS or TXRST changes that bit of ECON1 and no other |
| `Chip.PacketDecrement` | enc28j60/enc28j60.c:734 | Setting PKTDEC takes one off the packet count and leaves all of ECON2 |
| `Driver.EirBitField` | enc28j60/enc28j60.c:748 | What clearing RXERIF or TXIF leaves in EIR; the flags the driver never touches stay |
| `Driver.EirOnlyThat` | enc28j60/enc28j60.c:748-808 | Clearing RXERIF or TXIF: every bit of EIR but that one reads as before |
| `Driver.Enc28.ReadPhyRegister` | enc28j60/enc28j60.c:545-614 | For every PHY register, starting bank and finite busy time it ends with the 16-bit value, shadow and chip in bank 2 |
| `Driver.Enc28.StartPhyRead` | enc28j60/enc28j60.c:562-574 | The read is started for the requested register |
| `Driver.Enc28.AwaitPhy` | enc28j60/enc28j60.c:576-592 | The polling loop ends, and only when the read is finished |
| `Driver.Enc28.FetchPhy` | enc28j60/enc28j60.c:594-611 | The two result bytes, dummy bytes skipped |
| `Driver.Enc28.Init` | enc28j60/enc28j60.c:237-260 | Station address, filter, ring bounds and timing registers are what the configuration says, the MACON registers were asked for the bits that belong to the duplex mode, all others are kept; the clock was ready before the MAC was touched; on an idle chip the ring is empty afterwards |
| `Driver.Enc28.InitBuffers` | enc28j60/enc28j60.c:88-113 | Ring bounds and limit; the write pointer follows ERXST |
| `Driver.Enc28.InitReceiveFilter` | enc28j60/enc28j60.c:115-121 | ERXFCON holds the configured filter mask |
| `Driver.Enc28.PollClock` | enc28j60/enc28j60.c:123-138 | The loop ends, and only when the clock is ready |
| `Driver.Enc28.InitMac` | enc28j60/enc28j60.c:140-230 | Station address and the timing that belongs to the duplex mode of the PHY; the other registers are kept; back in bank 0 |
| `Driver.Enc28.InitMacControl` | enc28j60/enc28j60.c:143-178 | The duplex mode is the one PHCON1 reports; MACON1, MACON3 and MACON4 are asked for exactly the configured bits; only MACON and MII registers change |
| `Driver.Enc28.InitMacTiming` | enc28j60/enc28j60.c:180-205 | Frame length and gaps for the duplex mode |
| `Driver.Enc28.WriteMacAddress` | enc28j60/enc28j60.c:207-222 | The six address registers of bank 3 |
| `Driver.Enc28.SoftReset` | enc28j60/enc28j60.c:262-281 | Receiver and transmitter off, nothing pending, no flag, no interrupt, bank 0 selected; PHY and revision kept; the shadow bank is left as it was |
| `Driver.Enc28.ReadHwRev` | enc28j60/enc28j60.c:283-308 | Both PHY identifiers and the silicon revision |
| `Driver.Enc28.ReadMac` | enc28j60/enc28j60.c:310-327 | The station address in the chip |
| `Driver.Enc28.BeginPacketTransfer` | enc28j60/enc28j60.c:616-648 | Receiver on, interrupts on, auto-increment on, RXERIF cleared and no other flag; in step if and only if the oldest waiting frame is at the start of the ring |
| `Driver.EieMask` | enc28j60/enc28j60.c:628-634 | Exactly the four interrupt enables of the mask are added |
| `Driver.Enc28.EndPacketTransfer` | enc28j60/enc28j60.c:894-901 | The receiver is off and nothing waiting is lost |
| `Driver.Enc28.StartUp` | stm32_app/stm32_network_app.c:77-105 | After reset, initialisation, revision read and begin, driver and chip are in step with a tight limit; all configured registers, the four interrupt enables and the station address are set, no receive error is left, and the three identification numbers are those of the chip |
| `Driver.Enc28.Session` | enc28j60/enc28j60.c:310-327 | After any sequence of begin, end, read, write, check and PHY calls the shadow bank is the selected bank and the station address read back is the one that was set; every read call was recorded and every packet not refused handed to the transmitter, in order |
| `Driver.Enc28.MakeCall` | enc28j60/enc28j60.c:616-901 | Each of these calls keeps both, and does what it is for |
| `Driver.Enc28.OtherCall` | enc28j60/enc28j60.c:759-901 | Calls that read no frame leave the receiving side alone |
| `Driver.Enc28.Perform` | enc28j60/enc28j60.c:616-901 | Begin and end switch the receiver; a write is refused exactly if too short, or busy only if a transmission was running, and else handed over; a check of an ended transmission tells how it ended; a PHY read gives the register; the station address is kept |
| `Driver.PointersAtRest` | enc28j60/enc28j60.c:667-732 | ERDPT even and at a record head, ERXRDPT odd and never the write pointer, both in the ring, and with a tight limit no address the chip may still write holds unread data |
| `RxRing.PointersDistinct` | enc28j60/enc28j60.c:708-732 | Limit odd, write pointer and oldest record even, all inside the ring |
| `RxRing.WritableIsFree` | enc28j60/enc28j60.c:708-732 | With a tight limit the writable arc never meets unread data |
| `RxRing.LooseIsExposed` | enc28j60/enc28j60.c:743-746 | With a limit that is not tight the writable arc contains the address of the oldest waiting byte |
| `RxRing.TightExact` | enc28j60/enc28j60.c:708-746 | So a limit keeps the chip away from what waits if and only if it is tight |
| `RxRing.TakeOldest` | enc28j60/enc28j60.c:709-726 | Moving the limit to just before the next record keeps the ring invariant, at the start of the ring and after an overrun of the oldest record too; it makes the limit tight if and only if what still waits spans less than the ring |
| `RxRing.ResetLimitExact` | enc28j60/enc28j60.c:743-746 | Setting the limit to the end of the ring damages no waiting frame; the limit is tight if and only if they do not run past that end, always when none waits |
| `RxRing.DepositAppends` | enc28j60/enc28j60.c:708-732 | With the limit kept there, a frame that fits the free space the chip computes is appended, wherever it wraps; of all that was written the ring holds the last 5936 bytes, so nothing that waits is destroyed unless it spans more |
| `RxRing.OverrunOverwrites` | enc28j60/enc28j60.c:743-746 | What lies further back is overwritten: each byte is that of the new record 5936 positions later |
| `Witnesses.OverrunDamages` | enc28j60/enc28j60.c:738-751 | A frame the chip accepts when the ring can hold no more overwrites the head of the oldest waiting one: the driver reads the bytes of the new record as the head of the old one |
| `Witnesses.LostFrame` | enc28j60/enc28j60.c:738-751 | After a raced reset and three more arrivals all frames are readable; a fourth overwrites the one that waits, and its head reads as that of a good frame of 65535 bytes |
| `Witnesses.CopiedInTime` | enc28j60/enc28j60.c:702-734 | An overrun that comes after the frame was copied and reaches no other does no harm: more frames than the ring can hold wait when the limit is set, yet the frame was read right, and driver and chip are in step with a tight limit |
| `Witnesses.AfterRacedReset` | enc28j60/enc28j60.c:738-751 | RXERIF set and no packet pending, so a read enters the receive error branch; a frame comes in, and the commands of the branch leave a limit that is not tight |
| `Witnesses.RefusedFrameIsHead` | enc28j60/enc28j60.c:690-700 | After a refusal the next call takes the first six bytes of the refused frame for the head of a record |
| `Witnesses.RefusedThenMisread` | enc28j60/enc28j60.c:690-700 | A damaged frame for this station comes in; one read of a head refuses it, and the next read takes its destination address for the head of a good frame of 61374 bytes |
| `Witnesses.SecondBeginRereads` | enc28j60/enc28j60.c:622-626 | Two frames come in, the commands of one read take the first, those of a second begin follow: the next read finds the head of the frame already delivered |
| `RxRing.FetchInRing` | enc28j60/enc28j60.c:675-705 | Reading with auto-increment follows the ring from its end to its start |
| `Driver.HeadDecodes` | enc28j60/enc28j60.c:679-715 | The head of a record, taken apart as the driver does, gives next pointer, length and status |
| `Driver.OldestHead` | enc28j60/enc28j60.c:672-683 | The six bytes read are the head of the oldest record as long as the waiting frames span at most the ring |
| `Driver.OldestBody` | enc28j60/enc28j60.c:702-705 | The bytes behind the head are the frame as long as they span at most six bytes more |
| `Driver.OldestReleased` | enc28j60/enc28j60.c:727-732 | The limit before the next record takes the oldest frame out; it is tight if and only if what still waits spans less than the ring |
| `Chip.EvolveStaysFenced` | enc28j60/enc28j60.c:708-732 | Even with driver and chip out of step, the receive engine never writes outside the ring, so the transmit area is safe |
| `Chip.EvolveKeepsRing` | enc28j60/enc28j60.c:650-757 | Whatever the chip does on its own, frames wait in the order they came, new ones at the end, and memory below the ring keeps its bytes except for the status vector |
| `Ping.IsPingRequest` | stm32_app/debug_utils/enc28_debug.c:35-63 | True exactly for the frames of which two addresses, EtherType 0x0800, an IPv4 header with protocol 1 and ICMP type 8 can be cut off with at least seven bytes left, however long |
| `Ping.RecognisedExactly` | stm32_app/debug_utils/enc28_debug.c:35-63 | The test by positions holds exactly for the frames built that way |
| `Ping.HandlePing` | stm32_app/debug_utils/enc28_debug.c:65-101 | Both error codes with the response buffer untouched; otherwise the response is the reply and the bytes behind it are kept |
| `Ping.ReplyExact` | stm32_app/debug_utils/enc28_debug.c:84-98 | Byte by byte: MAC and IP addresses exchanged, type and checksum rewritten, all else kept |
| `Ping.HeaderSumPreserved` | stm32_app/debug_utils/enc28_debug.c:92-95 | The IPv4 header sum (section 3.1 of RFC 791) is unchanged |
| `Ping.ReplyChecksumExact` | stm32_app/debug_utils/enc28_debug.c:97-98 | For every message length from 8, odd ones included: a request that verifies gets a reply that verifies if and only if the checksum field read little-endian is below 0xFFF8 |
| `Ping.ReplySum` | stm32_app/debug_utils/enc28_debug.c:97-98 | The exact change of the little-endian sum, with and without wrap-around |
| `Ping.DamageIsKept` | stm32_app/debug_utils/enc28_debug.c:97-98 | Below 0xFFF8 a damaged request is not turned into a valid reply |
| `Ping.AgreesWithRfc1624` | stm32_app/debug_utils/enc28_debug.c:97-98 | Below 0xFFF8 the patched field is congruent to equation 3 in section 3 of RFC 1624 |
| `Ping.LostCarryExample` | stm32_app/debug_utils/enc28_debug.c:97-98 | A request that verifies and whose reply does not |
| `Ping.ReplyIsNotAnswered` | stm32_app/debug_utils/enc28_debug.c:84-98 | A reply is never itself taken for a request |
| `Checksum.OrderIndependent` | stm32_app/debug_utils/enc28_debug.c:98 | A message verifies in one byte order exactly when it does in the other (section 2(B) of RFC 1071) |
| `Checksum.SwappedSum` | stm32_app/debug_utils/enc28_debug.c:98 | Swapping the bytes of every word multiplies the sum by 256 modulo 65535 |
| `Checksum.VerifiesIffMultiple` | stm32_app/debug_utils/enc28_debug.c:98 | The one's-complement test is divisibility of a non-zero sum by 65535 |
| `Checksum.FoldExact` | stm32_app/debug_utils/enc28_debug.c:98 | Adding carries back keeps the residue and keeps zero apart |
| `Protocol.StepKeeps` | stm32_app/tasks/eth_packet_task.c:47-109 | Every step of either task, in either build, keeps conservation, buffer contents and the value queues |
| `Protocol.RunKeeps` | stm32_app/tasks/eth_packet_task.c:47-109 | So does every run |
| `Protocol.PacketKeeps` | stm32_app/tasks/eth_packet_task.c:54-107 | Every step of the packet task |
| `Protocol.IpKeeps` | stm32_app/tasks/ip_stack_task.c:114-169 | Every step of the IP task |
| `Protocol.Exclusive` | stm32_app/tasks/eth_packet_task.c:73-81 | What a task holds is in no queue and not with the other task |
| `Protocol.RequestIsNotReply` | stm32_app/tasks/ip_stack_task.c:127-134 | Request and reply buffer are different objects |
| `Protocol.AnswerPingCarries` | stm32_app/tasks/ip_stack_task.c:130-142 | The reply lands in the reply buffer, disturbs no queued packet, and the error branch is not taken |
| `Protocol.CopyInCarries` | stm32_app/tasks/eth_packet_task.c:78-79 | The copy disturbs no queued packet |
| `Protocol.CopyOutCarries` | stm32_app/tasks/ip_stack_task.c:56-57 | After the copy the buffer holds exactly the output; it disturbs no queued packet |
| `Protocol.PutTransmitCarries` | stm32_app/tasks/ip_stack_task.c:135-138 | The queued packet is the reply to the packet just processed |
| `Protocol.ReplyIsEchoReply` | stm32_app/debug_utils/enc28_debug.c:84-98 | The reply to a request is an echo reply of the same length |
| `Guarantees.BuffersConserved` | stm32_app/tasks/eth_packet_task.c:54-99 | In every reachable state the buffers in circulation, eight after the fill loop, are in the three queues and the hands of the tasks, each exactly once |
| `Guarantees.OwnershipExclusive` | stm32_app/tasks/ip_stack_task.c:117-146 | While one task holds a buffer nobody else can reach it |
| `Guarantees.SendsSucceed` | stm32_app/tasks/ip_stack_task.c:135-146 | No send of either task ever finds its queue full |
| `Guarantees.QueuedDataFits` | stm32_app/tasks/eth_packet_task.c:94-98 | Ready buffers hold at most 1600 bytes; transmit buffers hold echo replies of 42 to 1600 bytes, so the driver never refuses them as too short |
| `Guarantees.RefinesValueQueues` | stm32_app/tasks/eth_packet_task.c:62-101 | Received is processed, waiting and arriving; sent, leaving and waiting are the replies to the answered ones of the processed, in order; ignored are exactly the packets that are not built as echo requests |
| `Guarantees.RepliesInOrder` | stm32_app/tasks/ip_stack_task.c:124-146 | The replies belong to an in-order subsequence of the packets |
| `Guarantees.AnsweredInOrder` | stm32_app/tasks/ip_stack_task.c:124-146 | No packet is answered twice or out of order |
| `Guarantees.DroppedOnlyWhenExhausted` | stm32_app/tasks/ip_stack_task.c:127-128 | A request is dropped only with an empty free queue, when the other seven buffers are all in use elsewhere |
| `Guarantees.NoDeadlock` | stm32_app/tasks/ip_stack_task.c:114-146 | Without lwIP the transmit queue never holds all eight buffers and the tasks never wait for each other |
| `Guarantees.StuckExact` | stm32_app/tasks/eth_packet_task.c:73 | In both builds, short of a failed assertion, nobody can move if and only if both tasks wait on empty queues, and then all eight buffers wait for transmission |
| `Guarantees.HaltsOnlyWhenBusy` | stm32_app/tasks/eth_packet_task.c:97-98 | The assertion on the write fails only when a transmission is still in progress |
| `Guarantees.HaltsExact` | stm32_app/tasks/eth_packet_task.c:97-98 | In both builds it fails exactly for a transmission in progress or a packet under 14 bytes, and only lwIP can queue one |
| `Guarantees.FreeSoon` | stm32_app/tasks/eth_packet_task.c:73 | While the packet task waits for a buffer, at most four steps of the IP task make one available |
| `Guarantees.LoopOrder` | stm32_app/tasks/eth_packet_task.c:62-108 | The transmit queue is looked at only after a read that brought no frame, and loses one packet at a time; the next read comes after the wait, or at once after a frame was passed on |
| `Guarantees.CloserToRead` | stm32_app/tasks/eth_packet_task.c:54-108 | In both builds every step of the packet task brings it closer to its next read, unless the assertion stops it, and no other step changes where it stands |
| `Guarantees.ReadsAgain` | stm32_app/tasks/eth_packet_task.c:54-108 | On every schedule, a packet task that takes enough steps comes back to its read or was stopped by the assertion |
| `Guarantees.BackToRead` | stm32_app/tasks/eth_packet_task.c:54-108 | Without lwIP, from every state in which it is not stopped, a bounded number of steps leads to its next read |
| `Guarantees.StepDrains` | stm32_app/tasks/eth_packet_task.c:91-107 | Without receptions every step but an idle turn takes off weight |
| `Guarantees.UsefulStepsBounded` | stm32_app/tasks/eth_packet_task.c:91-107 | However scheduled, the useful steps left are bounded by the weight |
| `Guarantees.UsefulStepPossible` | stm32_app/tasks/eth_packet_task.c:91-107 | While a buffer is not free some useful step is possible |
| `Guarantees.DrainsCompletely` | stm32_app/tasks/eth_packet_task.c:91-107 | The state with all eight buffers free can be reached within that bound |
| `Guarantees.DeadlockReachable` | stm32_app/tasks/ip_stack_task.c:147-165 | With lwIP the deadlock can be reached, for every frame and every output length the driver accepts |
| `Guarantees.NoDeadlockWhenDisciplined` | stm32_app/tasks/ip_stack_task.c:147-165 | There is no deadlock on any run on which lwIP sends only while it holds its input packet, and a buffer is always to spare |
| `Guarantees.DeadlockExact` | stm32_app/tasks/ip_stack_task.c:147-165 | Every run from the start that deadlocks contains an output without an input packet |
| `Guarantees.FlowsInBothBuilds` | stm32_app/tasks/ip_stack_task.c:50-71 | In both builds received is processed, waiting and arriving, and queued is sent, leaving and waiting, in order |
| `Guarantees.OutputsInOrder` | stm32_app/tasks/ip_stack_task.c:50-61 | With lwIP: sent, leaving, waiting and between lwIP and the queue are together the outputs it asked for and got a buffer for, byte for byte and in order |
| `Guarantees.LogsFollow` | stm32_app/tasks/ip_stack_task.c:50-61 | These outputs are those the schedule asks for while a buffer is free; received are the frames it brings |
| `Guarantees.OutputLostOnlyWhenExhausted` | stm32_app/tasks/ip_stack_task.c:52-60 | An output is lost only with an empty free queue, when all eight buffers are queued or held |
| `Guarantees.TimersSend` | stm32_app/tasks/ip_stack_task.c:50-61 | Holding no input packet, lwIP can take every free buffer |
| `Tasks.RunApplication` | stm32_app/stm32_network_app.c:73-148 | End to end in either build, under any schedule: received is what the reads returned, and is processed, waiting and arriving; queued is handed to the transmitter, leaving and waiting. Each read is recorded; driver and chip are in step if and only if no frame was refused and no overwritten pointer read; while in step and intact, received are exactly the frames the chip took in since start-up, in particular if every read returned OK or NO_DATA, or if all these frames are good and fit a buffer and no receive error was handled while one waited; without lwIP, queued are the replies to the answered requests, in order; the station address is still the one set. Every turn is one step, none is passed over in which the packet task could move, and the reads among the steps are exactly the recorded calls; with lwIP, queued and between it and the queue are the outputs the schedule asks for while a buffer is free; ignored are exactly the packets not built as echo requests |
| `Tasks.App.Execute` | stm32_app/tasks/eth_packet_task.c:62-108 | Any schedule of the two tasks on the real buffers is a run of the state machine with one step for every turn; a turn in which the packet task can move is not passed over; the reads among the steps are exactly the calls of the driver |
| `Tasks.App.constructor` | stm32_app/stm32_network_app.c:124-142 | The tasks start with empty queues and eight separate buffers |
| `Tasks.App.PutInPool` | stm32_app/tasks/eth_packet_task.c:56-58 | Buffer i goes into the free queue, which has room |
| `Tasks.App.WipeBuffer` | stm32_app/tasks/eth_packet_task.c:59 | Buffer i, already in the queue, is overwritten with 0xFF |
| `Tasks.App.ReadFrame` | stm32_app/tasks/eth_packet_task.c:64 | Exactly one driver call; the step receives the packet it returned with OK, or nothing |
| `Tasks.App.CallDriver` | stm32_app/tasks/eth_packet_task.c:64 | One call of the driver and no other; its packet is appended to what was received, and the records of all calls explain which frames these are |
| `Tasks.App.ReceivedExactly` | stm32_app/tasks/eth_packet_task.c:64-81 | Received are the packets of the recorded calls; when driver and chip are in step, and when they are exactly the frames taken in |
| `Tasks.App.TakeBuffer` | stm32_app/tasks/eth_packet_task.c:72-73 | The oldest free buffer |
| `Tasks.App.CopyIn` | stm32_app/tasks/eth_packet_task.c:78-79 | Length and bytes of the packet, the rest of the buffer kept |
| `Tasks.App.PutReady` | stm32_app/tasks/eth_packet_task.c:81 | The buffer goes to the end of the ready queue |
| `Tasks.App.TakeTransmit` | stm32_app/tasks/eth_packet_task.c:93-95 | The oldest transmit buffer, or none |
| `Tasks.App.WritePacket` | stm32_app/tasks/eth_packet_task.c:97-98 | The driver call: the chip is told to send exactly what the buffer holds; any status but OK stops the packet task, and that a transmission is in progress is reported only when one was |
| `Tasks.App.HandToDriver` | stm32_app/tasks/eth_packet_task.c:97 | The packet handed over is the bytes of the buffer, stored in the chip and requested; refused exactly if too short, as busy only if a transmission was running; reception is not affected |
| `Tasks.App.PutBack` | stm32_app/tasks/eth_packet_task.c:99 | The buffer goes back to the free queue |
| `Tasks.App.WakeUp` | stm32_app/tasks/eth_packet_task.c:107 | Round the loop |
| `Tasks.App.TakeReady` | stm32_app/tasks/ip_stack_task.c:116-117 | The oldest ready buffer |
| `Tasks.App.CheckPing` | stm32_app/tasks/ip_stack_task.c:124 | The decision between answering and ignoring |
| `Tasks.App.TakeReplyBuffer` | stm32_app/tasks/ip_stack_task.c:126-128 | The oldest free buffer, or the request is dropped |
| `Tasks.App.AnswerPing` | stm32_app/tasks/ip_stack_task.c:130-134 | Length and reply are written in place into the other buffer |
| `Tasks.App.PutTransmit` | stm32_app/tasks/ip_stack_task.c:135-138 | The reply goes to the end of the transmit queue |
| `Tasks.App.GiveReplyBack` | stm32_app/tasks/ip_stack_task.c:139-142 | The error branch |
| `Tasks.App.FreeRequest` | stm32_app/tasks/ip_stack_task.c:146 | The request goes back to the free queue |
| `Tasks.App.FreeInput` | stm32_app/tasks/ip_stack_task.c:68-71 | The input packet is freed, or lwIP returns |
| `Tasks.App.TakeOutputBuffer` | stm32_app/tasks/ip_stack_task.c:52-54 | A buffer for output, or none and the packet is lost without notice |
| `Tasks.App.CopyOut` | stm32_app/tasks/ip_stack_task.c:56-57 | Length and payload as lwIP gave them, the rest of the buffer kept |
| `Tasks.App.PutOutput` | stm32_app/tasks/ip_stack_task.c:58 | The packet goes to the end of the transmit queue |
| `Tasks.App.PacketTurn` | stm32_app/tasks/eth_packet_task.c:54-107 | The packet task takes a step whenever it can, and it is one of the state machine; a read is exactly one driver call |
| `Tasks.App.IpTurn` | stm32_app/tasks/ip_stack_task.c:114-165 | Whatever the IP task does next is a step of the state machine |

## Left out

- `lwIP` itself: the build with lwIP is modelled as an environment that frees its input packet exactly once before it returns and calls the output function any number of times, with packets of at most 1600 bytes, before or after that.
- Without lwIP, `sys_check_timeouts` (stm32_app/tasks/ip_stack_task.c:165) is taken to send nothing, since no packet was ever handed to the stack; the model with lwIP shows what follows if it does.
- The FreeRTOS kernel: queues are bounded FIFOs with atomic operations; task creation, notifications, stack watermarks and printing do not appear. A notification and its time-out both just end the wait.
- `eth_packets` pointers are indices 0 to 7 into the array of buffers; queues hold these indices.
- Null-pointer guards of the driver's arguments and of the SPI callbacks.
- Time: `wait_nano`, chip select set-up and hold times; the chip takes some finite time for its clock and for a PHY read.
- Silicon errata: PKTIF is taken to hold exactly when the packet count is positive. The receive engine follows the data sheet: it stores a frame if the record fits the free space the data sheet computes and the packet count is below 255, and raises RXERIF otherwise.
- MACON1, MACON3 and MACON4: the driver uses bit field set on them (enc28j60/enc28j60.c:151-176), which the chip defines only for ETH registers; which bits are asked for is stated, the values they take are left open.
- ETXND: what is in memory is stated, not that the frame on the wire equals the buffer, since ETXND is one past the last byte written.
- Liveness of reception after the receive error branch: the limit may leave no room for the next frame; only safety is stated.
- Driver.Enc28.SoftReset: mid-run resets are not followed further, because the shadow bank is not reset with the chip; it is the first step of `StartUp`.
- Driver.Enc28.Traffic: once driver and chip are out of step, nothing more is claimed about the packets returned, and nothing about the bytes of a packet whose record the chip had come round to before it was read.
- Driver.Enc28.WritePacket: packets over 1962 bytes, whose status vector would reach the receive ring, are accepted as the program accepts them, but nothing is claimed about memory afterwards.
- Tasks.RunApplication: the frames on the wire are those of `driver.sent`; retransmission after an aborted transmission does not exist in the program.
- The SPI byte transfers of one chip select period are one transaction; the separate output and input calls inside it are not distinguished.
- Registers the driver never uses (hash filters, DMA, flow control, interrupts on the pin) and PHY writes.
